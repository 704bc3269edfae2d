// canonicalJson: equal texts for equal values, whatever the order of their keys.

module CanonicalJson {
  import opened Results
  import opened Texts
  import opened JsonText
  import opened JsonRoundTrip

  datatype Member = Member(key: Text, value: Value)

  /** A JavaScript value made of JSON's kinds and undefined; numbers, booleans and null are tokens. */
  datatype Value =
    | Undefined
    | Plain(token: Text)
    | Words(text: Text)
    | List(items: seq<Value>)
    | Record(members: seq<Member>)

  /** Tokens are JSON's, and an object has every key once. */
  ghost predicate IsValue(v: Value)
    decreases v
  {
    match v
    case Plain(t) => IsScalar(t)
    case List(vs) => forall k :: 0 <= k < |vs| ==> IsValue(vs[k])
    case Record(ms) => DistinctKeys(ms) && forall k :: 0 <= k < |ms| ==> IsValue(ms[k].value)
    case _ => true
  }

  ghost predicate DistinctKeys(ms: seq<Member>) {
    forall a, b :: 0 <= a < b < |ms| ==> ms[a].key != ms[b].key
  }

  // ---------------------------------------------------------------------------
  // The printer
  // ---------------------------------------------------------------------------

  /** The order of JavaScript strings: by code units. */
  predicate Less(a: Text, b: Text)
    decreases |a|
  {
    b != [] && (a == [] || a[0] < b[0] || (a[0] == b[0] && Less(a[1..], b[1..])))
  }

  /** At `p` the texts differ for the first time, and the first has the lesser code unit or has ended there. */
  predicate FirstDiffers(a: Text, b: Text, p: nat) {
    p <= |a| && p < |b| && a[..p] == b[..p] && (p == |a| || a[p] < b[p])
  }

  lemma {:induction false} LessExactly(a: Text, b: Text)
    ensures Less(a, b) <==> exists p: nat :: FirstDiffers(a, b, p)
    decreases |a|
  {
    if b != [] && a != [] && a[0] == b[0] {
      LessExactly(a[1..], b[1..]);
      if p: nat :| FirstDiffers(a[1..], b[1..], p) {
        assert a[..p + 1] == [a[0]] + a[1..][..p] && b[..p + 1] == [b[0]] + b[1..][..p];
        assert FirstDiffers(a, b, p + 1);
      }
      if p: nat :| FirstDiffers(a, b, p) {
        assert p > 0;
        assert a[1..][..p - 1] == a[..p][1..] && b[1..][..p - 1] == b[..p][1..];
        assert FirstDiffers(a[1..], b[1..], p - 1);
      }
    } else if b != [] {
      assert a[..0] == b[..0];
      if a == [] || a[0] < b[0] {
        assert FirstDiffers(a, b, 0);
      }
      if p: nat :| FirstDiffers(a, b, p) {
        if p > 0 {
          DiffersLater(a, b, p);
        }
      }
    }
  }

  lemma DiffersLater(a: Text, b: Text, p: nat)
    requires p > 0 && FirstDiffers(a, b, p)
    ensures a != [] && a[0] == b[0]
  {
    assert a[..p][0] == a[0] && b[..p][0] == b[0];
  }

  function Insert(m: Member, ms: seq<Member>): (r: seq<Member>)
    ensures forall x :: x in r <==> x == m || x in ms
  {
    if ms == [] then [m]
    else if Less(ms[0].key, m.key) then
      assert ms == [ms[0]] + ms[1..];
      [ms[0]] + Insert(m, ms[1..])
    else [m] + ms
  }

  /** The members that are not undefined, sorted by key. */
  function Sorted(ms: seq<Member>): (r: seq<Member>)
    ensures forall x :: x in r <==> x in ms && !x.value.Undefined?
  {
    if ms == [] then []
    else
      assert ms == [ms[0]] + ms[1..];
      if ms[0].value.Undefined? then Sorted(ms[1..]) else Insert(ms[0], Sorted(ms[1..]))
  }

  function Canonical(v: Value): Text
    requires !v.Undefined?
    decreases v, 0
  {
    match v
    case Plain(t) => t
    case Words(t) => Quote(t)
    case List(vs) => [LBRACKET] + CanonicalItems(vs) + [RBRACKET]
    case Record(ms) => [LBRACE] + CanonicalMembers(v, Sorted(ms)) + [RBRACE]
  }

  function CanonicalElement(v: Value): Text
    decreases v, 1
  {
    if v.Undefined? then NULL else Canonical(v)
  }

  function CanonicalItems(vs: seq<Value>): Text
    decreases vs, 0
  {
    if vs == [] then []
    else CanonicalElement(vs[0]) + (if |vs| == 1 then [] else [COMMA] + CanonicalItems(vs[1..]))
  }

  function CanonicalMembers(v: Value, ms: seq<Member>): Text
    requires v.Record? && forall m :: m in ms ==> m in v.members && !m.value.Undefined?
    decreases v, 0, |ms|
  {
    if ms == [] then []
    else
      assert ms[0] in v.members && forall m :: m in ms[1..] ==> m in ms;
      Quote(ms[0].key) + [COLON] + Canonical(ms[0].value)
      + (if |ms| == 1 then [] else [COMMA] + CanonicalMembers(v, ms[1..]))
  }

  /** canonicalJson; undefined itself has no text. */
  function CanonicalJson(v: Value): Option<Text> {
    if v.Undefined? then None else Some(Canonical(v))
  }

  // ---------------------------------------------------------------------------
  // The values that count as equal
  // ---------------------------------------------------------------------------

  function Find(ms: seq<Member>, key: Text): (r: Option<Value>)
    ensures r.Some? ==> Member(key, r.value) in ms && !r.value.Undefined?
  {
    if ms == [] then None
    else if ms[0].key == key && !ms[0].value.Undefined? then Some(ms[0].value)
    else Find(ms[1..], key)
  }

  /**
   * Equal up to the order of keys, undefined-valued keys, and undefined in place of null as an
   * array's element.
   */
  ghost predicate Same(v: Value, w: Value)
    decreases v, 0
  {
    match v
    case Undefined => w.Undefined?
    case Plain(t) => w == Plain(t)
    case Words(t) => w == Words(t)
    case List(vs) =>
      w.List? && |vs| == |w.items| && forall k :: 0 <= k < |vs| ==> SameElement(vs[k], w.items[k])
    case Record(ms) =>
      && w.Record?
      && (forall m :: m in ms && !m.value.Undefined? ==>
            Find(w.members, m.key).Some? && Same(m.value, Find(w.members, m.key).value))
      && (forall m :: m in w.members && !m.value.Undefined? ==> Find(ms, m.key).Some?)
  }

  ghost predicate SameElement(v: Value, w: Value)
    decreases v, 1
  {
    || (IsNull(v) && IsNull(w))
    || (!v.Undefined? && !w.Undefined? && Same(v, w))
  }

  predicate IsNull(v: Value) {
    v.Undefined? || v == Plain(NULL)
  }

  // ---------------------------------------------------------------------------
  // Sorting
  // ---------------------------------------------------------------------------

  lemma {:induction false} LessTotal(a: Text, b: Text)
    ensures Less(a, b) || Less(b, a) || a == b
    ensures !(Less(a, b) && Less(b, a)) && !Less(a, a)
    decreases |a|
  {
    if a != [] && b != [] {
      LessTotal(a[1..], b[1..]);
      LessTotal(a[1..], a[1..]);
      assert a == [a[0]] + a[1..] && b == [b[0]] + b[1..];
    } else if a != [] {
      LessTotal(a[1..], a[1..]);
    }
  }

  lemma {:induction false} LessTransitive(a: Text, b: Text, c: Text)
    requires Less(a, b) && Less(b, c)
    ensures Less(a, c)
    decreases |a|
  {
    if a != [] && a[0] == b[0] == c[0] {
      LessTransitive(a[1..], b[1..], c[1..]);
    }
  }

  ghost predicate Ascends(ms: seq<Member>) {
    forall a, b :: 0 <= a < b < |ms| ==> Less(ms[a].key, ms[b].key)
  }

  lemma {:induction false} InsertAscends(m: Member, ms: seq<Member>)
    requires Ascends(ms) && forall k :: 0 <= k < |ms| ==> ms[k].key != m.key
    ensures Ascends(Insert(m, ms))
  {
    hide Less;
    if ms != [] {
      LessTotal(ms[0].key, m.key);
      if Less(ms[0].key, m.key) {
        InsertAscends(m, ms[1..]);
        var r := Insert(m, ms[1..]);
        forall k | 0 <= k < |r| ensures Less(ms[0].key, r[k].key) {
          assert r[k] in r;
          if r[k] != m {
            var j :| 0 <= j < |ms[1..]| && ms[1..][j] == r[k];
            assert ms[j + 1] == r[k];
          }
        }
      } else {
        forall k | 0 <= k < |ms| ensures Less(m.key, ms[k].key) {
          if k > 0 {
            LessTransitive(m.key, ms[0].key, ms[k].key);
          }
        }
      }
    }
  }

  lemma {:induction false} SortedAscends(ms: seq<Member>)
    requires DistinctKeys(ms)
    ensures Ascends(Sorted(ms))
  {
    hide Less;
    if ms != [] {
      var r := Sorted(ms[1..]);
      SortedAscends(ms[1..]);
      if !ms[0].value.Undefined? {
        forall k | 0 <= k < |r| ensures r[k].key != ms[0].key {
          assert r[k] in r;
          var j :| 0 <= j < |ms[1..]| && ms[1..][j] == r[k];
          assert ms[j + 1] == r[k];
        }
        InsertAscends(ms[0], r);
      }
    }
  }

  ghost predicate HasKey(ms: seq<Member>, key: Text) {
    exists k :: 0 <= k < |ms| && ms[k].key == key
  }

  /** Ascending lists with the same keys have them at the same places. */
  lemma {:induction false} SameKeys(a: seq<Member>, b: seq<Member>)
    requires Ascends(a) && Ascends(b)
    requires forall key :: HasKey(a, key) <==> HasKey(b, key)
    ensures |a| == |b| && forall k :: 0 <= k < |a| ==> a[k].key == b[k].key
    decreases |a|
  {
    hide Less;
    assert a != [] ==> HasKey(a, a[0].key);
    assert b != [] ==> HasKey(b, b[0].key);
    if a != [] && b != [] {
      FirstKeys(a, b);
      forall key ensures HasKey(a[1..], key) <==> HasKey(b[1..], key) {
        TailKeys(a, key);
        TailKeys(b, key);
      }
      SameKeys(a[1..], b[1..]);
      forall k | 0 <= k < |a| ensures a[k].key == b[k].key {
        if k > 0 {
          assert a[1..][k - 1].key == b[1..][k - 1].key;
        }
      }
    }
  }

  lemma FirstKeys(a: seq<Member>, b: seq<Member>)
    requires a != [] && b != [] && Ascends(a) && Ascends(b)
    requires forall key :: HasKey(a, key) <==> HasKey(b, key)
    ensures a[0].key == b[0].key
  {
    hide Less;
    assert HasKey(a, a[0].key) && HasKey(b, b[0].key);
    var i :| 0 <= i < |b| && b[i].key == a[0].key;
    var j :| 0 <= j < |a| && a[j].key == b[0].key;
    LessTotal(a[0].key, b[0].key);
  }

  lemma TailKeys(a: seq<Member>, key: Text)
    requires a != [] && Ascends(a)
    ensures HasKey(a[1..], key) <==> HasKey(a, key) && key != a[0].key
  {
    hide Less;
    if HasKey(a[1..], key) {
      var k :| 0 <= k < |a[1..]| && a[1..][k].key == key;
      assert a[k + 1].key == key;
      LessTotal(key, key);
    }
    if HasKey(a, key) && key != a[0].key {
      var k :| 0 <= k < |a| && a[k].key == key;
      assert a[1..][k - 1].key == key;
    }
  }

  // ---------------------------------------------------------------------------
  // The printed text as JSON
  // ---------------------------------------------------------------------------

  /** The parsed form of a value: undefined is null, keys are sorted and defined. */
  function Normal(v: Value): Json
    decreases v, 0
  {
    match v
    case Undefined => JScalar(NULL)
    case Plain(t) => JScalar(t)
    case Words(t) => JString(t)
    case List(vs) => JArray(NormalItems(vs))
    case Record(ms) => JObject(NormalMembers(v, Sorted(ms)))
  }

  function NormalItems(vs: seq<Value>): (r: seq<Json>)
    ensures |r| == |vs| && forall k :: 0 <= k < |vs| ==> r[k] == Normal(vs[k])
    decreases vs, 0
  {
    if vs == [] then [] else [Normal(vs[0])] + NormalItems(vs[1..])
  }

  function NormalMembers(v: Value, ms: seq<Member>): (r: seq<Property>)
    requires v.Record? && forall m :: m in ms ==> m in v.members && !m.value.Undefined?
    ensures |r| == |ms|
    ensures forall k :: 0 <= k < |ms| ==> ms[k] in v.members && r[k] == Property(ms[k].key, Normal(ms[k].value))
    decreases v, 0, |ms|
  {
    if ms == [] then []
    else
      assert ms[0] in v.members && forall m :: m in ms[1..] ==> m in ms;
      [Property(ms[0].key, Normal(ms[0].value))] + NormalMembers(v, ms[1..])
  }

  /** The syntax that canonicalJson prints. */
  function Syn(v: Value): Syntax
    decreases v, 0
  {
    match v
    case Undefined => Scalar(NULL)
    case Plain(t) => Scalar(t)
    case Words(t) => Str(QuoteBody(t))
    case List(vs) => Group(false, SynItems(vs), NoComma([]))
    case Record(ms) => Group(true, SynMembers(v, Sorted(ms)), NoComma([]))
  }

  function SynItems(vs: seq<Value>): (r: seq<Entry>)
    ensures |r| == |vs| && forall k :: 0 <= k < |vs| ==> r[k] == Entry([], NoLabel, Syn(vs[k]), [])
    decreases vs, 0
  {
    if vs == [] then [] else [Entry([], NoLabel, Syn(vs[0]), [])] + SynItems(vs[1..])
  }

  function SynMembers(v: Value, ms: seq<Member>): (r: seq<Entry>)
    requires v.Record? && forall m :: m in ms ==> m in v.members && !m.value.Undefined?
    ensures |r| == |ms|
    ensures forall k :: 0 <= k < |ms| ==>
              ms[k] in v.members && r[k] == Entry([], Label(QuoteBody(ms[k].key), [], []), Syn(ms[k].value), [])
    decreases v, 0, |ms|
  {
    if ms == [] then []
    else
      assert ms[0] in v.members && forall m :: m in ms[1..] ==> m in ms;
      [Entry([], Label(QuoteBody(ms[0].key), [], []), Syn(ms[0].value), [])] + SynMembers(v, ms[1..])
  }

  lemma PrintsLabel(key: Text)
    ensures PrintLabel(Label(QuoteBody(key), [], [])) == Quote(key) + [COLON]
    ensures KeyOf(Label(QuoteBody(key), [], [])) == key
  {
    hide QuoteBody, Decode;
    QuoteRoundTrip(key);
    var q := [QUOTE] + QuoteBody(key) + [QUOTE];
    assert q + [] + [COLON] + [] == q + [COLON];
  }

  lemma {:induction false} Prints(v: Value)
    ensures Print(Syn(v)) == CanonicalElement(v)
    decreases v, 1
  {
    hide QuoteBody;
    match v {
      case List(vs) =>
        PrintsItems(vs);
        assert [LBRACKET] + CanonicalItems(vs) + [] + [RBRACKET] == [LBRACKET] + CanonicalItems(vs) + [RBRACKET];
      case Record(ms) =>
        PrintsMembers(v, Sorted(ms));
        var t := CanonicalMembers(v, Sorted(ms));
        assert [LBRACE] + t + [] + [RBRACE] == [LBRACE] + t + [RBRACE];
      case _ =>
    }
  }

  lemma {:induction false} PrintsItems(vs: seq<Value>)
    ensures PrintEntries(SynItems(vs)) == CanonicalItems(vs)
    decreases vs, 0
  {
    hide Print, Syn, CanonicalElement, PrintLabel;
    if vs != [] {
      Prints(vs[0]);
      PrintsItem(vs[0]);
      if |vs| > 1 {
        PrintsItems(vs[1..]);
        assert SynItems(vs)[1..] == SynItems(vs[1..]);
      }
    }
  }

  lemma PrintsItem(v: Value)
    ensures PrintEntry(Entry([], NoLabel, Syn(v), [])) == Print(Syn(v))
  {
    hide Print, Syn;
    assert [] + [] + Print(Syn(v)) + [] == Print(Syn(v));
  }

  lemma PrintsMember(m: Member)
    ensures PrintEntry(Entry([], Label(QuoteBody(m.key), [], []), Syn(m.value), [])) ==
            Quote(m.key) + [COLON] + Print(Syn(m.value))
  {
    hide Print, Syn, PrintLabel, Quote, QuoteBody;
    PrintsLabel(m.key);
    assert [] + (Quote(m.key) + [COLON]) + Print(Syn(m.value)) + [] == Quote(m.key) + [COLON] + Print(Syn(m.value));
  }

  lemma {:induction false} PrintsMembers(v: Value, ms: seq<Member>)
    requires v.Record? && forall m :: m in ms ==> m in v.members && !m.value.Undefined?
    ensures PrintEntries(SynMembers(v, ms)) == CanonicalMembers(v, ms)
    decreases v, 0, |ms|
  {
    hide Print, Syn, Canonical, PrintLabel, PrintEntry, Quote;
    if ms != [] {
      assert ms[0] in v.members && forall m :: m in ms[1..] ==> m in ms;
      Prints(ms[0].value);
      PrintsMember(ms[0]);
      if |ms| > 1 {
        PrintsMembers(v, ms[1..]);
        assert SynMembers(v, ms)[1..] == SynMembers(v, ms[1..]);
      }
    }
  }

  lemma EntryStrict(obj: bool, tag: Label, x: Syntax)
    requires Strict(x) && (obj <==> tag.Label?)
    requires tag.Label? ==> Decode(tag.body).Some? && tag.mid == [] && tag.gap == []
    ensures WellFormedEntry(obj, Entry([], tag, x, []), AllJsonSpace, false)
  {
    hide Decode;
  }

  lemma GroupStrict(obj: bool, es: seq<Entry>)
    requires forall k :: 0 <= k < |es| ==> WellFormedEntry(obj, es[k], AllJsonSpace, false)
    ensures Strict(Group(obj, es, NoComma([])))
  {
    hide WellFormedEntry;
    assert AllJsonSpace([]);
    assert WellFormedEntries(obj, es, AllJsonSpace, false);
  }

  lemma {:induction false} SynStrict(v: Value)
    requires IsValue(v)
    ensures Strict(Syn(v))
    decreases v
  {
    hide Decode, IsNumber, WellFormedEntry;
    match v {
      case Undefined =>
        NullIsScalar();
      case Plain(_) =>
      case Words(t) =>
        QuoteRoundTrip(t);
      case List(vs) =>
        var es := SynItems(vs);
        forall k | 0 <= k < |es| ensures WellFormedEntry(false, es[k], AllJsonSpace, false) {
          SynStrict(vs[k]);
          EntryStrict(false, NoLabel, Syn(vs[k]));
        }
        GroupStrict(false, es);
      case Record(ms) =>
        var es := SynMembers(v, Sorted(ms));
        forall k | 0 <= k < |es| ensures WellFormedEntry(true, es[k], AllJsonSpace, false) {
          var m := Sorted(ms)[k];
          assert m in Sorted(ms);
          ValuesInside(v, m);
          SynStrict(m.value);
          QuoteRoundTrip(m.key);
          EntryStrict(true, Label(QuoteBody(m.key), [], []), Syn(m.value));
        }
        GroupStrict(true, es);
    }
  }

  lemma NullIsScalar()
    ensures IsScalar(NULL)
  {
  }

  lemma {:induction false} AssignNew(acc: seq<Property>, ps: seq<Property>)
    requires forall a, b :: 0 <= a < b < |ps| ==> ps[a].key != ps[b].key
    requires forall a, b :: 0 <= a < |acc| && 0 <= b < |ps| ==> acc[a].key != ps[b].key
    ensures Assign(acc, ps) == acc + ps
    decreases |ps|
  {
    if ps == [] {
      assert acc + [] == acc;
    } else {
      PutNew(acc, ps[0]);
      AssignNew(acc + [ps[0]], ps[1..]);
      assert acc + [ps[0]] + ps[1..] == acc + ps;
    }
  }

  lemma {:induction false} PutNew(acc: seq<Property>, p: Property)
    requires forall a :: 0 <= a < |acc| ==> acc[a].key != p.key
    ensures Put(acc, p) == acc + [p]
  {
    if acc != [] {
      PutNew(acc[1..], p);
    }
  }

  lemma {:induction false} Denotes(v: Value)
    requires IsValue(v)
    ensures Denote(Syn(v)) == Normal(v)
    decreases v, 1
  {
    hide Decode, QuoteBody, KeyOf;
    match v {
      case Words(t) =>
        QuoteRoundTrip(t);
      case List(vs) =>
        forall k | 0 <= k < |vs| ensures Denote(Syn(vs[k])) == Normal(vs[k]) {
          Denotes(vs[k]);
        }
        var ds := DenoteEntries(SynItems(vs));
        assert Values(ds) == NormalItems(vs);
      case Record(ms) =>
        DenotesRecord(v);
      case _ =>
    }
  }

  lemma {:induction false} DenotesRecord(v: Value)
    requires v.Record? && IsValue(v)
    ensures Denote(Syn(v)) == Normal(v)
    decreases v, 0
  {
    hide Decode, QuoteBody, KeyOf, Sorted, Assign, Values;
    var ss := Sorted(v.members);
    var ds := DenoteEntries(SynMembers(v, ss));
    SortedAscends(v.members);
    forall k | 0 <= k < |ss| ensures ds[k] == Property(ss[k].key, Normal(ss[k].value)) {
      SortedMember(v.members, k);
      ValuesInside(v, ss[k]);
      Denotes(ss[k].value);
      PrintsLabel(ss[k].key);
    }
    assert ds == NormalMembers(v, ss);
    AscendingKeysDiffer(ss);
    AssignNew([], ds);
    assert [] + ds == ds;
  }

  lemma AscendingKeysDiffer(ms: seq<Member>)
    requires Ascends(ms)
    ensures DistinctKeys(ms)
  {
    forall a, b | 0 <= a < b < |ms| ensures ms[a].key != ms[b].key {
      LessTotal(ms[a].key, ms[b].key);
    }
  }

  /** Parsing the canonical text gives the value with null for undefined elements and sorted keys. */
  lemma ParsesCanonical(v: Value)
    requires IsValue(v) && !v.Undefined?
    ensures JsonParse(Canonical(v)) == Some(Normal(v))
  {
    hide Syn, Normal, Canonical, Print, JsonParse, WellFormed, IsValue;
    Prints(v);
    SynStrict(v);
    Denotes(v);
    ParsesDocument([], Syn(v), []);
    assert [] + Print(Syn(v)) + [] == Print(Syn(v));
  }

  // ---------------------------------------------------------------------------
  // Equal texts, equal values
  // ---------------------------------------------------------------------------

  lemma {:induction false} FindsDistinct(ms: seq<Member>, m: Member)
    requires DistinctKeys(ms) && m in ms && !m.value.Undefined?
    ensures Find(ms, m.key) == Some(m.value)
  {
    assert ms == [ms[0]] + ms[1..];
    if ms[0] != m {
      var k :| 0 <= k < |ms[1..]| && ms[1..][k] == m;
      assert ms[k + 1] == m;
      FindsDistinct(ms[1..], m);
    }
  }

  /** Values with the same parsed form are the same, and conversely. */
  lemma {:induction false} NormalIsSame(v: Value, w: Value)
    requires IsValue(v) && IsValue(w)
    ensures Normal(v) == Normal(w) <==> SameElement(v, w)
    decreases v, 2
  {
    match v {
      case List(vs) =>
        if w.List? && |vs| == |w.items| {
          forall k | 0 <= k < |vs| ensures Normal(vs[k]) == Normal(w.items[k]) <==> SameElement(vs[k], w.items[k]) {
            NormalIsSame(vs[k], w.items[k]);
          }
          ListsSame(vs, w.items);
        }
      case Record(ms) =>
        if w.Record? {
          RecordsSame(v, w);
        }
      case _ =>
    }
  }

  lemma ListsSame(vs: seq<Value>, ws: seq<Value>)
    requires |vs| == |ws|
    requires forall k :: 0 <= k < |vs| ==> (Normal(vs[k]) == Normal(ws[k]) <==> SameElement(vs[k], ws[k]))
    ensures Normal(List(vs)) == Normal(List(ws)) <==> Same(List(vs), List(ws))
  {
    hide SameElement;
    var a, b := NormalItems(vs), NormalItems(ws);
    if a == b {
      forall k | 0 <= k < |vs| ensures SameElement(vs[k], ws[k]) {
        assert a[k] == b[k];
      }
    }
    if Same(List(vs), List(ws)) {
      forall k | 0 <= k < |vs| ensures a[k] == b[k] {
        assert SameElement(vs[k], ws[k]);
      }
    }
  }

  /** A member of the sorted list is one of the defined members. */
  lemma SortedMember(ms: seq<Member>, k: nat)
    requires DistinctKeys(ms) && k < |Sorted(ms)|
    ensures Sorted(ms)[k] in ms && !Sorted(ms)[k].value.Undefined?
    ensures Find(ms, Sorted(ms)[k].key) == Some(Sorted(ms)[k].value)
  {
    assert Sorted(ms)[k] in Sorted(ms);
    FindsDistinct(ms, Sorted(ms)[k]);
  }

  lemma MemberSorted(ms: seq<Member>, m: Member) returns (k: nat)
    requires m in ms && !m.value.Undefined?
    ensures k < |Sorted(ms)| && Sorted(ms)[k] == m
  {
    assert m in Sorted(ms);
    k :| 0 <= k < |Sorted(ms)| && Sorted(ms)[k] == m;
  }

  lemma ValuesInside(v: Value, m: Member)
    requires v.Record? && IsValue(v) && m in v.members
    ensures IsValue(m.value) && m.value < v
  {
    var k :| 0 <= k < |v.members| && v.members[k] == m;
    assert v.members[k].value < v;
  }

  lemma {:induction false} RecordsSame(v: Value, w: Value)
    requires v.Record? && w.Record? && IsValue(v) && IsValue(w)
    ensures Normal(v) == Normal(w) <==> Same(v, w)
    decreases v, 1
  {
    hide Sorted, Find, Less;
    if Normal(v) == Normal(w) {
      NormalThenSame(v, w);
    }
    if Same(v, w) {
      SameThenNormal(v, w);
    }
  }

  lemma {:induction false} NormalThenSame(v: Value, w: Value)
    requires v.Record? && w.Record? && IsValue(v) && IsValue(w) && Normal(v) == Normal(w)
    ensures Same(v, w)
    decreases v, 0
  {
    hide Sorted, Find, Less;
    var ms, ns := v.members, w.members;
    var a, b := Sorted(ms), Sorted(ns);
    assert NormalMembers(v, a) == NormalMembers(w, b);
    assert forall k :: 0 <= k < |a| ==> NormalMembers(v, a)[k] == NormalMembers(w, b)[k];
    forall m | m in ms && !m.value.Undefined?
      ensures Find(ns, m.key).Some? && Same(m.value, Find(ns, m.key).value)
    {
      var k := MemberSorted(ms, m);
      SortedMember(ns, k);
      ValuesInside(v, m);
      ValuesInside(w, b[k]);
      NormalIsSame(m.value, b[k].value);
      BothDefined(m.value, b[k].value);
    }
    forall n | n in ns && !n.value.Undefined? ensures Find(ms, n.key).Some? {
      var k := MemberSorted(ns, n);
      SortedMember(ms, k);
    }
  }

  lemma BothDefined(v: Value, w: Value)
    requires !v.Undefined? && !w.Undefined?
    ensures SameElement(v, w) <==> Same(v, w)
  {
  }

  lemma KeysAgree(ms: seq<Member>, ns: seq<Member>, key: Text)
    requires DistinctKeys(ms)
    requires forall m :: m in ms && !m.value.Undefined? ==> Find(ns, m.key).Some?
    ensures HasKey(Sorted(ms), key) ==> HasKey(Sorted(ns), key)
  {
    if HasKey(Sorted(ms), key) {
      var k :| 0 <= k < |Sorted(ms)| && Sorted(ms)[k].key == key;
      SortedMember(ms, k);
      var j := MemberSorted(ns, Member(key, Find(ns, key).value));
    }
  }

  lemma {:induction false} SameThenNormal(v: Value, w: Value)
    requires v.Record? && w.Record? && IsValue(v) && IsValue(w) && Same(v, w)
    ensures Normal(v) == Normal(w)
    decreases v, 0
  {
    hide Sorted, Find, Less, HasKey;
    var ms, ns := v.members, w.members;
    var a, b := Sorted(ms), Sorted(ns);
    forall key ensures HasKey(a, key) <==> HasKey(b, key) {
      KeysAgree(ms, ns, key);
      KeysAgree(ns, ms, key);
    }
    SortedAscends(ms);
    SortedAscends(ns);
    SameKeys(a, b);
    forall k | 0 <= k < |a| ensures NormalMembers(v, a)[k] == NormalMembers(w, b)[k] {
      SortedMember(ms, k);
      SortedMember(ns, k);
      ValuesInside(v, a[k]);
      ValuesInside(w, b[k]);
      NormalIsSame(a[k].value, b[k].value);
      BothDefined(a[k].value, b[k].value);
    }
    assert NormalMembers(v, a) == NormalMembers(w, b);
  }

  /** What a parsed value is printed as. */
  function Rendered(j: Json): Text
    decreases j, 1
  {
    match j
    case JScalar(t) => t
    case JString(t) => Quote(t)
    case JArray(js) => [LBRACKET] + RenderedItems(js) + [RBRACKET]
    case JObject(ps) => [LBRACE] + RenderedMembers(ps) + [RBRACE]
  }

  function RenderedItems(js: seq<Json>): Text
    decreases js, 0
  {
    if js == [] then [] else Rendered(js[0]) + (if |js| == 1 then [] else [COMMA] + RenderedItems(js[1..]))
  }

  function RenderedMembers(ps: seq<Property>): Text
    decreases ps, 0
  {
    if ps == [] then []
    else Quote(ps[0].key) + [COLON] + Rendered(ps[0].value)
         + (if |ps| == 1 then [] else [COMMA] + RenderedMembers(ps[1..]))
  }

  /** The canonical text depends only on the parsed form. */
  lemma {:induction false} RendersNormal(v: Value)
    ensures Rendered(Normal(v)) == CanonicalElement(v)
    decreases v, 1
  {
    hide Quote;
    match v {
      case List(vs) => RendersItems(vs);
      case Record(ms) => RendersMembers(v, Sorted(ms));
      case _ =>
    }
  }

  lemma {:induction false} RendersItems(vs: seq<Value>)
    ensures RenderedItems(NormalItems(vs)) == CanonicalItems(vs)
    decreases vs, 0
  {
    hide Rendered, Normal, CanonicalElement;
    if vs != [] {
      RendersNormal(vs[0]);
      RendersItems(vs[1..]);
      assert NormalItems(vs)[1..] == NormalItems(vs[1..]);
    }
  }

  lemma {:induction false} RendersMembers(v: Value, ms: seq<Member>)
    requires v.Record? && forall m :: m in ms ==> m in v.members && !m.value.Undefined?
    ensures RenderedMembers(NormalMembers(v, ms)) == CanonicalMembers(v, ms)
    decreases v, 0, |ms|
  {
    hide Rendered, Normal, Canonical, Quote;
    if ms != [] {
      assert ms[0] in v.members && forall m :: m in ms[1..] ==> m in ms;
      RendersNormal(ms[0].value);
      DefinedElement(ms[0].value);
      RendersMembers(v, ms[1..]);
      assert NormalMembers(v, ms)[1..] == NormalMembers(v, ms[1..]);
    }
  }

  lemma DefinedElement(v: Value)
    requires !v.Undefined?
    ensures CanonicalElement(v) == Canonical(v)
  {
    hide Canonical;
  }

  /** Two values have the same canonical text exactly when they are the same up to key order. */
  lemma CanonicalIsUnambiguous(v: Value, w: Value)
    requires IsValue(v) && IsValue(w)
    ensures CanonicalJson(v) == CanonicalJson(w) <==> Same(v, w)
  {
    hide Normal, Canonical, JsonParse, Rendered, IsValue;
    if v.Undefined? || w.Undefined? {
      UndefinedIsAlone(v, w);
    } else {
      ParsesCanonical(v);
      ParsesCanonical(w);
      RendersNormal(v);
      RendersNormal(w);
      DefinedElement(v);
      DefinedElement(w);
      NormalIsSame(v, w);
      BothDefined(v, w);
    }
  }

  lemma UndefinedIsAlone(v: Value, w: Value)
    requires v.Undefined? || w.Undefined?
    ensures Same(v, w) <==> v.Undefined? && w.Undefined?
  {
  }

  /** An array's undefined element is printed like null, so the text does not tell these apart. */
  lemma UndefinedElementLooksLikeNull()
    ensures CanonicalJson(List([Undefined])) == CanonicalJson(List([Plain(NULL)]))
    ensures List([Undefined]) != List([Plain(NULL)])
  {
    assert CanonicalItems([Undefined]) == NULL + [] && CanonicalItems([Plain(NULL)]) == NULL + [];
  }
}
