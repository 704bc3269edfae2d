// Main results about updating the configuration text: the edited text parses to the old value
// with exactly the requested entries set.

module ConfigResults {
  import opened Results
  import opened Texts
  import opened JsonText
  import opened JsoncBlanking
  import opened JsoncDocument
  import opened ConfigScan
  import opened TextEdits
  import opened ConfigUpdate
  import opened ConfigRoundTrip
  import opened ConfigTheorems

  // ---------------------------------------------------------------------------
  // Values seen in the text and in the blanked text
  // ---------------------------------------------------------------------------

  /** A well-formed value stands at `i` in the text, and blanked in the blanked text. */
  ghost predicate Seen(raw: Text, t: Text, i: nat, v: Syntax) {
    && At(raw, i, Print(v)) && At(t, i, Print(Blanked(v)))
    && WellFormed(v, IsGap, true) && WellFormed(Blanked(v), AllJsonSpace, true)
  }

  /** The `k`-th entry is the first one with the key. */
  ghost predicate FirstWith(es: seq<Entry>, k: nat, key: Text) {
    k < |es| && KeyOf(es[k].tag) == key && forall j :: 0 <= j < k ==> KeyOf(es[j].tag) != key
  }

  lemma SeesRoot(d: Document)
    requires ValidDocument(d)
    ensures var raw := PrintDocument(d);
            && Lexes(raw, 0) && Seen(raw, StripText(raw, 0), |d.lead|, d.root)
            && raw[..|d.lead|] == d.lead && raw[|d.lead| + |Print(d.root)|..] == d.trail
            && |d.lead| + |Print(d.root)| <= |raw|
  {
    hide At, Print, WellFormed, AllJsonSpace, Lexes, StripText, Blanked;
    var raw := PrintDocument(d);
    StripsDocument(d);
    DocumentParts(raw, d);
    DocumentParts(StripText(raw, 0), BlankedDocument(d));
    assert raw == d.lead + (Print(d.root) + d.trail);
  }

  /** objectProps finds the document's root object, or that it is none. */
  lemma FindsRoot(d: Document)
    requires ValidDocument(d)
    ensures var t := StripText(PrintDocument(d), 0);
            if d.root.Group? && d.root.obj then ObjectAt(t, 0) == ObjectAt(t, |d.lead|)
            else ObjectAt(t, 0) == Err(NotAnObject)
  {
    hide At, Print, WellFormed, AllJsonSpace, StripText, BlankedEntries, BlankedTail, ObjectAt, Spans, Lexes;
    var t := StripText(PrintDocument(d), 0);
    SeesRoot(d);
    StripsDocument(d);
    var b := BlankedDocument(d);
    DocumentParts(t, b);
    if d.root.Group? && d.root.obj {
      FindsObject(t, 0, b.lead, BlankedEntries(d.root.entries), BlankedTail(d.root.tail));
      AtNothingMore(t, |d.lead|);
      NoEntriesStrict(true);
      FindsObject(t, |d.lead|, [], BlankedEntries(d.root.entries), BlankedTail(d.root.tail));
    } else {
      FindsNoObject(t, 0, b.lead, b.root);
    }
  }

  /** The first entry with a key is found, and its value stands at the offset that is found. */
  lemma SeesChild(raw: Text, t: Text, i: nat, es: seq<Entry>, tail: Tail, k: nat, key: Text)
    requires Seen(raw, t, i, Group(true, es, tail)) && FirstWith(es, k, key)
    ensures var o := i + 1 + |Front(es, k)|;
            && ObjectAt(t, i).Ok? && FindProp(ObjectAt(t, i).value.props, key).Some?
            && FindProp(ObjectAt(t, i).value.props, key).value.start == o
            && Seen(raw, t, o, es[k].value)
  {
    hide At, Print, Front, AllJsonSpace, IsGap, Spans, ObjectAt, FindProp, BlankedEntries, BlankedTail, WellFormed, KeyOf, Decode;
    FindsBlanked(t, i, es, tail);
    FindsFirst(es, i + 1, k, key);
    SpanAt(es, i + 1, k);
    BlankedChild(t, i, es, tail, k);
    ReplacesChild(raw, i, es, tail, k, es[k].value);
    ChildWellFormed(es, tail, k);
  }

  lemma ChildWellFormed(es: seq<Entry>, tail: Tail, k: nat)
    requires k < |es| && WellFormed(Group(true, es, tail), IsGap, true)
    ensures WellFormed(es[k].value, IsGap, true)
  {
    hide IsGap, Decode;
    assert WellFormedEntry(true, es[k], IsGap, true);
  }

  lemma LabelsOf(es: seq<Entry>, tail: Tail)
    requires WellFormed(Group(true, es, tail), IsGap, true)
    ensures HasLabels(es) && (es == [] ==> tail.NoComma?) && IsGap(tail.ws)
  {
    hide IsGap, Decode;
    forall k | 0 <= k < |es| ensures es[k].tag.Label? {
      assert WellFormedEntry(true, es[k], IsGap, true);
    }
  }

  /** The edits of an object that stands at `i`, in the order of the text. */
  function EditsOf(i: nat, es: seq<Entry>, tail: Tail, us: seq<Update>): seq<Edit> {
    AscendingEdits(ObjectSpan(Spans(es, i + 1), i, i + |Print(Group(true, es, tail))| - 1), es, us)
  }

  lemma EditsSpan(raw: Text, i: nat, es: seq<Entry>, tail: Tail, us: seq<Update>, o: ObjectSpan)
    requires At(raw, i, Print(Group(true, es, tail))) && HasLabels(es) && (es == [] ==> tail.NoComma?)
    requires DistinctKeys(us) && o.props == Spans(es, i + 1) && o.open == i
    ensures var n := i + |Print(Group(true, es, tail))|;
            && n <= |raw| && Ascending(AscendingEdits(o, es, us), i + 1, n - 1)
            && ApplyEdits(raw, SortDescending(ObjectEdits(o, us))) == Splice(raw, 0, AscendingEdits(o, es, us))
            && Splice(raw, 0, AscendingEdits(o, es, us)) == raw[..i] + Print(SetObject(es, tail, us)) + raw[n..]
  {
    hide *;
    SplicesObject(raw, i, es, tail, us, o);
    SortsEdits(o, es, us);
    AscendingRange(AscendingEdits(o, es, us), i + 1, i + |Print(Group(true, es, tail))| - 1, 0, |raw|);
    ApplySplices(raw, AscendingEdits(o, es, us));
  }

  /** Applying the edits of an object that stands at `i` prints the updated object in its place. */
  lemma EditsObject(raw: Text, t: Text, i: nat, es: seq<Entry>, tail: Tail, us: seq<Update>)
    requires Seen(raw, t, i, Group(true, es, tail)) && DistinctKeys(us)
    ensures var n := i + |Print(Group(true, es, tail))|;
            && n <= |raw| && ObjectAt(t, i).Ok? && Ascending(EditsOf(i, es, tail, us), i + 1, n - 1)
            && ApplyEdits(raw, SortDescending(ObjectEdits(ObjectAt(t, i).value, us))) ==
               Splice(raw, 0, EditsOf(i, es, tail, us))
            && Splice(raw, 0, EditsOf(i, es, tail, us)) == raw[..i] + Print(SetObject(es, tail, us)) + raw[n..]
  {
    hide At, Print, WellFormed, AllJsonSpace, IsGap, Spans, ObjectAt, ObjectEdits, SetObject, AscendingEdits, Splice,
         Ascending, ApplyEdits, SortDescending, Blanked, HasLabels, DistinctKeys;
    FindsBlanked(t, i, es, tail);
    LabelsOf(es, tail);
    EditsSpan(raw, i, es, tail, us, ObjectAt(t, i).value);
  }

  lemma AscendingRange(es: seq<Edit>, from: nat, size: nat, low: nat, high: nat)
    requires Ascending(es, from, size) && low <= from && size <= high
    ensures Ascending(es, low, high)
  {
    hide Ascending;
    AscendingWider(es, from, size, high);
    AscendingFrom(es, low, from, high);
  }

  // ---------------------------------------------------------------------------
  // updateConfigStringMap: the property is an object
  // ---------------------------------------------------------------------------

  /** The document with the `k`-th value of its root object replaced. */
  function WithChild(d: Document, k: nat, w: Syntax): Document
    requires d.root.Group? && k < |d.root.entries|
  {
    d.(root := d.root.(entries := WithValue(d.root.entries, k, w)))
  }

  lemma WithValueWellFormed(es: seq<Entry>, tail: Tail, k: nat, w: Syntax)
    requires k < |es| && WellFormed(Group(true, es, tail), IsGap, true) && WellFormed(w, IsGap, true)
    ensures WellFormed(Group(true, WithValue(es, k, w), tail), IsGap, true)
  {
    hide IsGap, Decode;
    var r := WithValue(es, k, w);
    forall j | 0 <= j < |r| ensures WellFormedEntry(true, r[j], IsGap, true) {
      assert WellFormedEntry(true, es[j], IsGap, true);
    }
  }

  lemma PrintsWithChild(d: Document, k: nat, w: Syntax)
    requires ValidDocument(d) && d.root.Group? && d.root.obj && k < |d.root.entries|
    ensures var raw, o := PrintDocument(d), |d.lead| + 1 + |Front(d.root.entries, k)|;
            && o + |Print(d.root.entries[k].value)| <= |raw|
            && raw[..o] + Print(w) + raw[o + |Print(d.root.entries[k].value)|..] == PrintDocument(WithChild(d, k, w))
  {
    hide Print, At, WellFormed, Front, StripText, Lexes, Blanked, IsGap, GapFrom, WithValue;
    SeesRoot(d);
    ReplacesChild(PrintDocument(d), |d.lead|, d.root.entries, d.root.tail, k, w);
  }

  /** The object property's entries are set in place; everything outside the edits is kept. */
  lemma UpdatesObject(d: Document, key: Text, k: nat, us: seq<Update>)
    requires ValidDocument(d) && d.root.Group? && d.root.obj && FirstWith(d.root.entries, k, key)
    requires DistinctKeys(us)
    ensures var raw, v := PrintDocument(d), d.root.entries[k].value;
            if v.Group? && v.obj then
              var edits := EditsOf(|d.lead| + 1 + |Front(d.root.entries, k)|, v.entries, v.tail, us);
              var d' := WithChild(d, k, SetObject(v.entries, v.tail, us));
              && UpdateStringMap(raw, key, us) == Ok(PrintDocument(d')) && ValidDocument(d')
              && Ascending(edits, 0, |raw|) && PrintDocument(d') == Splice(raw, 0, edits)
            else UpdateStringMap(raw, key, us) == Err(NotAnObject)
  {
    hide Print, At, WellFormed, Front, StripText, Lexes, IsGap, GapFrom, ObjectAt, ObjectEdits, SetObject, Splice,
         PrintDocument, FindProp, WithValue, EditsOf, Ascending, ApplyEdits, SortDescending, Blanked, ValidDocument;
    var raw := PrintDocument(d);
    var t := StripText(raw, 0);
    var es, i := d.root.entries, |d.lead|;
    var v, o := es[k].value, i + 1 + |Front(es, k)|;
    SeesRoot(d);
    FindsRoot(d);
    SeesChild(raw, t, i, es, d.root.tail, k, key);
    if v.Group? && v.obj {
      var w := SetObject(v.entries, v.tail, us);
      EditsObject(raw, t, o, v.entries, v.tail, us);
      AscendingRange(EditsOf(o, v.entries, v.tail, us), o + 1, o + |Print(v)| - 1, 0, |raw|);
      PrintsWithChild(d, k, w);
      SetObjectWellFormed(v.entries, v.tail, us);
      WithChildValid(d, k, w);
    } else {
      NoObjectThere(t, o, v);
    }
  }

  lemma WithChildValid(d: Document, k: nat, w: Syntax)
    requires ValidDocument(d) && d.root.Group? && d.root.obj && k < |d.root.entries| && WellFormed(w, IsGap, true)
    ensures ValidDocument(WithChild(d, k, w))
  {
    hide WellFormed, IsGap, IsEnding, WithValue;
    WithValueWellFormed(d.root.entries, d.root.tail, k, w);
  }

  lemma NoObjectThere(t: Text, i: nat, v: Syntax)
    requires WellFormed(Blanked(v), AllJsonSpace, true) && At(t, i, Print(Blanked(v))) && !(v.Group? && v.obj)
    ensures ObjectAt(t, i) == Err(NotAnObject)
  {
    hide At, Print, AllJsonSpace, ObjectAt, BlankedEntries, BlankedTail, WellFormed;
    AtBound(t, i, Print(Blanked(v)));
    AtNothingMore(t, i);
    NoEntriesStrict(true);
    FindsNoObject(t, i, [], Blanked(v));
  }

  /** A member of the parsed configuration. */
  function Setting(raw: Text, key: Text): Option<Json> {
    match ParseConfig(raw) case None => None case Some(j) => Member(j, key)
  }

  function Inner(j: Option<Json>, key: Text): Option<Json> {
    match j case None => None case Some(v) => Member(v, key)
  }

  lemma SettingOf(d: Document, key: Text)
    requires ValidDocument(d)
    ensures Setting(PrintDocument(d), key) == Member(Denote(d.root), key)
  {
    hide Member, Denote, ParseConfig, PrintDocument, ValidDocument;
    ParsesConfig(d);
  }

  lemma {:induction false} OnlyEntry(es: seq<Entry>, k: nat, key: Text)
    requires FirstWith(es, k, key) && Count(es, key) == 1
    ensures LastOf(DenoteEntries(es), key) == Some(Denote(es[k].value))
  {
    hide Denote, KeyOf, DenoteEntries, LastOf, Count;
    LastOfWithValue(es, k, es[k].value, key);
    assert WithValue(es, k, es[k].value) == es;
  }

  /**
   * Parsing the updated text gives the old members, but for the updated object: its updated keys
   * have their new values and its other keys their old ones. The first property with the key is
   * edited, so a key that is repeated in the text keeps its old value.
   */
  lemma UpdateSets(d: Document, key: Text, k: nat, us: seq<Update>, name: Text, x: Text)
    requires ValidDocument(d) && d.root.Group? && d.root.obj && FirstWith(d.root.entries, k, key)
    requires DistinctKeys(us)
    requires d.root.entries[k].value.Group? && d.root.entries[k].value.obj
    ensures var raw, v := PrintDocument(d), d.root.entries[k].value;
            var out := UpdateStringMap(raw, key, us);
            && out.Ok? && ParseConfig(out.value).Some?
            && (name != key || Count(d.root.entries, key) > 1 ==> Setting(out.value, name) == Setting(raw, name))
            && (Count(d.root.entries, key) == 1 ==>
                  && Setting(out.value, key).Some?
                  && Inner(Setting(out.value, key), x) ==
                     if ValueFor(us, x).Some? && Count(v.entries, x) <= 1 then Some(JString(ValueFor(us, x).value))
                     else Inner(Setting(raw, key), x))
  {
    hide Denote, ValidDocument, Member, ParseConfig, PrintDocument, WithValue, SetObject, ValueFor, DistinctKeys,
         UpdateStringMap, EditsOf, Splice, Ascending, Count, Setting, DenoteEntries, LastOf, KeyOf;
    var es, v := d.root.entries, d.root.entries[k].value;
    var w := SetObject(v.entries, v.tail, us);
    var d' := WithChild(d, k, w);
    UpdatesObject(d, key, k, us);
    ParsesConfig(d');
    MemberOfChild(d, k, w, key, name);
    MemberOfChild(d, k, w, key, key);
    if Count(es, key) == 1 {
      OnlyEntry(es, k, key);
      SettingOf(d, key);
      MemberIsLast(es, d.root.tail, key);
      DenotesSetObject(v.entries, v.tail, us, x);
    }
  }

  lemma MemberOfChild(d: Document, k: nat, w: Syntax, key: Text, name: Text)
    requires ValidDocument(d) && d.root.Group? && d.root.obj && FirstWith(d.root.entries, k, key)
    requires ValidDocument(WithChild(d, k, w))
    ensures Setting(PrintDocument(WithChild(d, k, w)), name) ==
            if name == key && Count(d.root.entries, key) == 1 then Some(Denote(w))
            else Setting(PrintDocument(d), name)
  {
    hide Denote, ValidDocument, Member, PrintDocument, WithValue, Count, Setting, DenoteEntries, LastOf;
    var es := d.root.entries;
    SettingOf(d, name);
    SettingOf(WithChild(d, k, w), name);
    MemberIsLast(es, d.root.tail, name);
    MemberIsLast(WithValue(es, k, w), d.root.tail, name);
    LastOfWithValue(es, k, w, name);
  }

  // ---------------------------------------------------------------------------
  // updateConfigCoreEnv
  // ---------------------------------------------------------------------------

  /** The document has an object `env` that has an object `core`, at the positions `k` and `m`. */
  ghost predicate HasCore(d: Document, k: nat, m: nat) {
    && d.root.Group? && d.root.obj && FirstWith(d.root.entries, k, ENV)
    && var env := d.root.entries[k].value;
    && env.Group? && env.obj && FirstWith(env.entries, m, CORE)
    && var core := env.entries[m].value;
    && core.Group? && core.obj
  }

  function SetCore(d: Document, k: nat, m: nat, us: seq<Update>): Syntax
    requires HasCore(d, k, m)
  {
    var env := d.root.entries[k].value;
    var core := env.entries[m].value;
    env.(entries := WithValue(env.entries, m, SetObject(core.entries, core.tail, us)))
  }

  /** The entries of `env.core` are set in place; everything outside the edits is kept. */
  lemma UpdatesCore(d: Document, k: nat, m: nat, us: seq<Update>)
    requires ValidDocument(d) && HasCore(d, k, m) && DistinctKeys(us)
    ensures var raw, env := PrintDocument(d), d.root.entries[k].value;
            var core := env.entries[m].value;
            var o := |d.lead| + 1 + |Front(d.root.entries, k)| + 1 + |Front(env.entries, m)|;
            var edits := EditsOf(o, core.entries, core.tail, us);
            var d' := WithChild(d, k, SetCore(d, k, m, us));
            && UpdateCoreEnv(raw, us) == Ok(PrintDocument(d')) && ValidDocument(d')
            && Ascending(edits, 0, |raw|) && PrintDocument(d') == Splice(raw, 0, edits)
  {
    hide Print, At, WellFormed, Front, StripText, Lexes, IsGap, GapFrom, ObjectAt, ObjectEdits, SetObject, Splice,
         PrintDocument, FindProp, WithValue, EditsOf, Ascending, ApplyEdits, SortDescending, Blanked, ValidDocument;
    var raw := PrintDocument(d);
    var t := StripText(raw, 0);
    var es, i := d.root.entries, |d.lead|;
    var env, o := es[k].value, i + 1 + |Front(es, k)|;
    var core, q := env.entries[m].value, o + 1 + |Front(env.entries, m)|;
    SeesRoot(d);
    FindsRoot(d);
    SeesChild(raw, t, i, es, d.root.tail, k, ENV);
    SeesChild(raw, t, o, env.entries, env.tail, m, CORE);
    EditsObject(raw, t, q, core.entries, core.tail, us);
    AscendingRange(EditsOf(q, core.entries, core.tail, us), q + 1, q + |Print(core)| - 1, 0, |raw|);
    var w := SetObject(core.entries, core.tail, us);
    ReplacesChild(raw, o, env.entries, env.tail, m, w);
    PrintsWithChild(d, k, SetCore(d, k, m, us));
    SetObjectWellFormed(core.entries, core.tail, us);
    WithValueWellFormed(env.entries, env.tail, m, w);
    WithChildValid(d, k, SetCore(d, k, m, us));
  }

  /**
   * Parsing the text with an updated `env.core` gives the old members everywhere but in `env.core`,
   * whose updated keys have their new values. The first `env` and its first `core` are edited and the
   * last ones count, so where one of them is repeated, the settings stay as they were.
   */
  lemma CoreEnvSets(d: Document, k: nat, m: nat, us: seq<Update>, name: Text, inner: Text, x: Text)
    requires ValidDocument(d) && HasCore(d, k, m) && DistinctKeys(us)
    ensures var raw, env := PrintDocument(d), d.root.entries[k].value;
            var core := env.entries[m].value;
            var out := UpdateCoreEnv(raw, us);
            && out.Ok? && ParseConfig(out.value).Some?
            && (name != ENV || Count(d.root.entries, ENV) > 1 ==> Setting(out.value, name) == Setting(raw, name))
            && (inner != CORE || Count(env.entries, CORE) > 1 ==>
                  Inner(Setting(out.value, ENV), inner) == Inner(Setting(raw, ENV), inner))
            && (Count(d.root.entries, ENV) == 1 && Count(env.entries, CORE) == 1 ==>
                  Inner(Inner(Setting(out.value, ENV), CORE), x) ==
                  if ValueFor(us, x).Some? && Count(core.entries, x) <= 1 then Some(JString(ValueFor(us, x).value))
                  else Inner(Inner(Setting(raw, ENV), CORE), x))
  {
    hide Denote, ValidDocument, Member, ParseConfig, PrintDocument, WithValue, SetObject, ValueFor, DistinctKeys,
         UpdateCoreEnv, EditsOf, Splice, Ascending, Count, Setting, DenoteEntries, LastOf, KeyOf, Front;
    var env := d.root.entries[k].value;
    var core := env.entries[m].value;
    var w := SetCore(d, k, m, us);
    var d' := WithChild(d, k, w);
    UpdatesCore(d, k, m, us);
    ParsesConfig(d');
    FirstCounts(d.root.entries, k, ENV);
    FirstCounts(env.entries, m, CORE);
    MemberOfChild(d, k, w, ENV, name);
    MemberOfChild(d, k, w, ENV, ENV);
    if Count(d.root.entries, ENV) == 1 {
      OnlyEntry(d.root.entries, k, ENV);
      SettingOf(d, ENV);
      MemberIsLast(d.root.entries, d.root.tail, ENV);
      MemberInside(env, m, SetObject(core.entries, core.tail, us), CORE, inner);
      MemberInside(env, m, SetObject(core.entries, core.tail, us), CORE, CORE);
      if Count(env.entries, CORE) == 1 {
        OnlyEntry(env.entries, m, CORE);
        MemberIsLast(env.entries, env.tail, CORE);
        DenotesSetObject(core.entries, core.tail, us, x);
      }
    }
  }

  lemma {:induction false} FirstCounts(es: seq<Entry>, k: nat, key: Text)
    requires FirstWith(es, k, key)
    ensures Count(es, key) >= 1
  {
    hide KeyOf;
    if k > 0 {
      assert es[1..][k - 1] == es[k];
      FirstCounts(es[1..], k - 1, key);
    }
  }

  lemma MemberInside(v: Syntax, k: nat, w: Syntax, key: Text, name: Text)
    requires v.Group? && v.obj && FirstWith(v.entries, k, key)
    ensures Member(Denote(v.(entries := WithValue(v.entries, k, w))), name) ==
            if name == key && Count(v.entries, key) == 1 then Some(Denote(w)) else Member(Denote(v), name)
  {
    hide Denote, Member, WithValue, Count, DenoteEntries, LastOf;
    MemberIsLast(v.entries, v.tail, name);
    MemberIsLast(WithValue(v.entries, k, w), v.tail, name);
    LastOfWithValue(v.entries, k, w, name);
  }

  /** What is missing on the way to `env.core` is reported. */
  lemma CoreEnvErrors(d: Document, k: nat, us: seq<Update>)
    requires ValidDocument(d)
    ensures var r := UpdateCoreEnv(PrintDocument(d), us);
            && (!(d.root.Group? && d.root.obj) ==> r == Err(NotAnObject))
            && (d.root.Group? && d.root.obj && !HasKey(d.root.entries, ENV) ==> r == Err(MissingEnv))
            && (d.root.Group? && d.root.obj && FirstWith(d.root.entries, k, ENV) ==>
                  var env := d.root.entries[k].value;
                  && (!(env.Group? && env.obj) ==> r == Err(NotAnObject))
                  && (env.Group? && env.obj && !HasKey(env.entries, CORE) ==> r == Err(MissingCore)))
  {
    hide Print, At, WellFormed, Front, StripText, Lexes, IsGap, GapFrom, ObjectAt, PrintDocument, FindProp, Blanked,
         ValidDocument, HasKey, KeyOf, Seen, Spans;
    var raw := PrintDocument(d);
    var t := StripText(raw, 0);
    SeesRoot(d);
    FindsRoot(d);
    if d.root.Group? && d.root.obj {
      var es, i := d.root.entries, |d.lead|;
      FindsNoKey(raw, t, i, es, d.root.tail, ENV);
      if FirstWith(es, k, ENV) {
        var env, o := es[k].value, i + 1 + |Front(es, k)|;
        SeesChild(raw, t, i, es, d.root.tail, k, ENV);
        if env.Group? && env.obj {
          FindsNoKey(raw, t, o, env.entries, env.tail, CORE);
        } else {
          SeesNoObject(raw, t, o, env);
        }
      }
    }
  }

  lemma SeesNoObject(raw: Text, t: Text, i: nat, v: Syntax)
    requires Seen(raw, t, i, v) && !(v.Group? && v.obj)
    ensures ObjectAt(t, i) == Err(NotAnObject)
  {
    hide At, Print, WellFormed, Blanked, ObjectAt;
    NoObjectThere(t, i, v);
  }

  /** An object is scanned without error, and a key it does not have is not found. */
  lemma FindsNoKey(raw: Text, t: Text, i: nat, es: seq<Entry>, tail: Tail, key: Text)
    requires Seen(raw, t, i, Group(true, es, tail))
    ensures ObjectAt(t, i) == Ok(ObjectSpan(Spans(es, i + 1), i, i + |Print(Group(true, es, tail))| - 1))
    ensures FindProp(ObjectAt(t, i).value.props, key).Some? <==> HasKey(es, key)
  {
    hide At, Print, WellFormed, Blanked, ObjectAt, Spans, FindProp, HasKey;
    FindsBlanked(t, i, es, tail);
    FindsKey(es, i + 1, key);
  }
}
