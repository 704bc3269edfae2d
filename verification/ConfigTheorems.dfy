// Main results about updating the configuration text.

module ConfigTheorems {
  import opened Results
  import opened Texts
  import opened JsonText
  import opened JsonRoundTrip
  import opened JsoncBlanking
  import opened JsoncDocument
  import opened ConfigScan
  import opened ConfigUpdate
  import opened ConfigRoundTrip

  // ---------------------------------------------------------------------------
  // Replacing the value of one entry
  // ---------------------------------------------------------------------------

  function WithValue(es: seq<Entry>, k: nat, w: Syntax): seq<Entry>
    requires k < |es|
  {
    es[k := es[k].(value := w)]
  }

  /** The printed entries in front of the `k`-th value. */
  function Front(es: seq<Entry>, k: nat): Text
    requires k < |es|
  {
    if k == 0 then es[0].pre + PrintLabel(es[0].tag)
    else PrintEntry(es[0]) + [COMMA] + Front(es[1..], k - 1)
  }

  /** The printed entries behind the `k`-th value. */
  function Back(es: seq<Entry>, k: nat): Text
    requires k < |es|
  {
    if k == 0 then es[0].post + (if |es| == 1 then [] else [COMMA] + PrintEntries(es[1..]))
    else Back(es[1..], k - 1)
  }

  lemma {:induction false} PrintsAround(es: seq<Entry>, k: nat, w: Syntax)
    requires k < |es|
    ensures PrintEntries(WithValue(es, k, w)) == Front(es, k) + Print(w) + Back(es, k)
    decreases k
  {
    hide Print, PrintLabel, PrintEntries;
    var r := WithValue(es, k, w);
    if k == 0 {
      var a := es[0].pre + PrintLabel(es[0].tag) + Print(w);
      if |es| == 1 {
        assert r == [r[0]];
        PrintsSingle(r[0]);
      } else {
        assert r == [r[0]] + es[1..];
        PrintsFirst(r[0], es[1..]);
        assert a + es[0].post + ([COMMA] + PrintEntries(es[1..])) == a + (es[0].post + ([COMMA] + PrintEntries(es[1..])));
      }
    } else {
      PrintsAround(es[1..], k - 1, w);
      assert r == [es[0]] + WithValue(es[1..], k - 1, w);
      PrintsFirst(es[0], WithValue(es[1..], k - 1, w));
      var e, f, b := PrintEntry(es[0]), Front(es[1..], k - 1), Back(es[1..], k - 1);
      assert e + ([COMMA] + (f + Print(w) + b)) == e + [COMMA] + f + Print(w) + b;
    }
  }

  lemma {:induction false} SpanAt(es: seq<Entry>, i: nat, k: nat)
    requires k < |es|
    ensures Spans(es, i)[k] ==
            var start := i + |Front(es, k)|;
            PropSpan(KeyOf(es[k].tag), start, start + |Print(es[k].value)|)
    decreases k
  {
    hide Print, PrintLabel, PrintEntry, KeyOf, Spans;
    SpansStep(es, i);
    if k > 0 {
      SpanAt(es[1..], i + |PrintEntry(es[0])| + 1, k - 1);
    }
  }

  lemma {:induction false} FindsFirst(es: seq<Entry>, i: nat, k: nat, key: Text)
    requires k < |es| && KeyOf(es[k].tag) == key && forall j :: 0 <= j < k ==> KeyOf(es[j].tag) != key
    ensures FindProp(Spans(es, i), key) == Some(Spans(es, i)[k])
    decreases k
  {
    hide PrintEntry, KeyOf, Spans, SpanOf;
    SpansStep(es, i);
    SpanKey(es[0], i);
    if k > 0 {
      FindsFirst(es[1..], i + |PrintEntry(es[0])| + 1, k - 1, key);
    }
  }

  /** The text around a piece `p` of an object that prints as `{`, `f`, `p`, `b`, `c`, `}`. */
  lemma PieceOfObject(raw: Text, i: nat, f: Text, p: Text, b: Text, c: Text, w: Text)
    requires At(raw, i, [LBRACE]) && At(raw, i + 1, f + p + b)
    requires At(raw, i + 1 + |f + p + b|, c) && At(raw, i + 1 + |f + p + b| + |c|, [RBRACE])
    ensures var n, o := i + |f + p + b| + |c| + 2, i + 1 + |f|;
            && At(raw, o, p) && o + |p| <= n <= |raw|
            && raw[..i] + ([LBRACE] + (f + w + b) + c + [RBRACE]) + raw[n..] == raw[..o] + w + raw[o + |p|..]
  {
    hide *;
    var n, o := i + |f + p + b| + |c| + 2, i + 1 + |f|;
    AtBound(raw, n - 1, [RBRACE]);
    AtSplit(raw, i + 1, f + p, b);
    AtSplit(raw, i + 1, f, p);
    SliceIs(raw, i, [LBRACE]);
    SliceIs(raw, i + 1, f);
    SliceIs(raw, o + |p|, b);
    SliceIs(raw, n - 1 - |c|, c);
    SliceIs(raw, n - 1, [RBRACE]);
    Sliced(raw, i, o, o + |p|, n - 1 - |c|, n);
    Rejoins(raw[..i], f, w, b, c, raw[n..]);
  }

  /** Replacing the value of an entry replaces its text and keeps the rest. */
  lemma ReplacesChild(raw: Text, i: nat, es: seq<Entry>, tail: Tail, k: nat, w: Syntax)
    requires k < |es| && At(raw, i, Print(Group(true, es, tail)))
    ensures var n, o := i + |Print(Group(true, es, tail))|, i + 1 + |Front(es, k)|;
            && At(raw, o, Print(es[k].value)) && o + |Print(es[k].value)| <= n <= |raw|
            && raw[..i] + Print(Group(true, WithValue(es, k, w), tail)) + raw[n..] ==
               raw[..o] + Print(w) + raw[o + |Print(es[k].value)|..]
  {
    hide At, PrintEntries, PrintTail, Front, Back, Print;
    var v, f, b := es[k].value, Front(es, k), Back(es, k);
    GroupParts(raw, i, true, es, tail);
    PrintsAround(es, k, v);
    assert WithValue(es, k, v) == es;
    PrintsAround(es, k, w);
    PieceOfObject(raw, i, f, Print(v), b, PrintTail(tail), Print(w));
    PrintsGroup(WithValue(es, k, w), tail);
  }

  lemma PrintsGroup(es: seq<Entry>, tail: Tail)
    ensures Print(Group(true, es, tail)) == [LBRACE] + PrintEntries(es) + PrintTail(tail) + [RBRACE]
  {
    hide PrintEntries, PrintTail;
  }

  lemma Sliced(raw: Text, i: nat, o: nat, q: nat, p: nat, n: nat)
    requires i < o <= q <= p < n <= |raw|
    ensures raw[..o] == raw[..i] + (raw[i..i + 1] + raw[i + 1..o])
    ensures raw[q..] == raw[q..p] + (raw[p..n - 1] + (raw[n - 1..n] + raw[n..]))
  {
  }

  lemma Rejoins(a: Text, f: Text, w: Text, b: Text, t: Text, z: Text)
    ensures a + ([LBRACE] + (f + w + b) + t + [RBRACE]) + z == a + ([LBRACE] + f) + w + (b + (t + ([RBRACE] + z)))
  {
  }

  // ---------------------------------------------------------------------------
  // The blanked document has the spans of the document
  // ---------------------------------------------------------------------------

  lemma {:induction false} BlankedLength(v: Syntax)
    ensures |Print(Blanked(v))| == |Print(v)|
    decreases v, 1
  {
    hide StripText;
    if v.Group? {
      BlankedEntriesLength(v.entries);
    }
  }

  lemma {:induction false} BlankedEntryLength(e: Entry)
    ensures |PrintEntry(BlankedEntry(e))| == |PrintEntry(e)|
    ensures |PrintLabel(BlankedEntry(e).tag)| == |PrintLabel(e.tag)|
    decreases e, 2
  {
    hide Print, Blanked;
    BlankedLength(e.value);
  }

  lemma {:induction false} BlankedEntriesLength(es: seq<Entry>)
    ensures |PrintEntries(BlankedEntries(es))| == |PrintEntries(es)|
    decreases es, 0
  {
    hide PrintEntry, BlankedEntry;
    if es != [] {
      BlankedEntryLength(es[0]);
      BlankedEntriesLength(es[1..]);
      assert BlankedEntries(es)[1..] == BlankedEntries(es[1..]);
    }
  }

  lemma BlankedSpan(e: Entry, i: nat)
    ensures SpanOf(BlankedEntry(e), i) == SpanOf(e, i)
  {
    hide PrintLabel, Print, KeyOf, StripText;
    BlankedEntryLength(e);
    BlankedLength(e.value);
    SameKey(e.tag);
  }

  lemma {:induction false} BlankedSpans(es: seq<Entry>, i: nat)
    ensures Spans(BlankedEntries(es), i) == Spans(es, i)
    decreases |es|
  {
    hide PrintEntry, SpanOf, Spans, BlankedEntry;
    if es == [] {
      NoSpans(i);
    } else {
      var bs := BlankedEntries(es);
      assert bs[0] == BlankedEntry(es[0]) && bs[1..] == BlankedEntries(es[1..]);
      BlankedEntryLength(es[0]);
      BlankedSpan(es[0], i);
      SpansStep(es, i);
      SpansStep(bs, i);
      BlankedSpans(es[1..], i + |PrintEntry(es[0])| + 1);
    }
  }

  lemma SameKey(l: Label)
    ensures KeyOf(BlankedLabel(l)) == KeyOf(l)
  {
  }

  /** An object that stands at `i` in the document, seen by the scanner in the blanked text. */
  lemma FindsBlanked(t: Text, i: nat, es: seq<Entry>, tail: Tail)
    requires WellFormed(Blanked(Group(true, es, tail)), AllJsonSpace, true)
    requires At(t, i, Print(Blanked(Group(true, es, tail))))
    ensures ObjectAt(t, i) ==
            Ok(ObjectSpan(Spans(es, i + 1), i, i + |Print(Group(true, es, tail))| - 1))
  {
    hide At, Print, Spans, ObjectAt, WellFormed, BlankOf, BlankedEntries, BlankedTail;
    BlankedSpans(es, i + 1);
    BlankedLength(Group(true, es, tail));
    AtBound(t, i, Print(Blanked(Group(true, es, tail))));
    AtNothingMore(t, i);
    NoEntriesStrict(true);
    FindsObject(t, i, [], BlankedEntries(es), BlankedTail(tail));
  }

  /** The child of a blanked object stands where the child of the object does. */
  lemma BlankedChild(t: Text, i: nat, es: seq<Entry>, tail: Tail, k: nat)
    requires k < |es| && WellFormed(Blanked(Group(true, es, tail)), AllJsonSpace, true)
    requires At(t, i, Print(Blanked(Group(true, es, tail))))
    ensures At(t, i + 1 + |Front(es, k)|, Print(Blanked(es[k].value)))
    ensures WellFormed(Blanked(es[k].value), AllJsonSpace, true)
  {
    hide At, Print, Front, BlankOf, Spans, PrintEntries, PrintTail;
    var bs := BlankedEntries(es);
    ReplacesChild(t, i, bs, BlankedTail(tail), k, bs[k].value);
    BlankedSpans(es, i + 1);
    SpanAt(es, i + 1, k);
    SpanAt(bs, i + 1, k);
    assert WellFormedEntry(true, bs[k], AllJsonSpace, true);
  }

  // ---------------------------------------------------------------------------
  // Well-formedness of what is written
  // ---------------------------------------------------------------------------

  /** White space in front of a gap, and a gap in front of white space, are gaps. */
  lemma {:induction false} GapJoin(s: Text, i: nat, t: Text, n: nat)
    requires At(s, i, t) && n <= |t| && i + |t| <= |s| && GapFrom(t, n, false) && GapFrom(s, i + |t|, false)
    ensures GapFrom(s, i + n, false)
    decreases |t| - n
  {
    hide At, LineEnd, BlockClose;
    if n < |t| {
      GapLexeme(s, t, i, n, false);
      AtBound(s, i, t);
      if IsClosedComment(t, n) {
        ClosedMoves(s, i, t, n);
      }
      GapJoin(s, i, t, StopAt(t, n));
    }
  }

  lemma ClosedMoves(s: Text, i: nat, t: Text, n: nat)
    requires At(s, i, t) && IsClosedComment(t, n)
    ensures IsClosedComment(s, i + n)
  {
    hide LineEnd, BlockClose;
    AtElement(s, i, t, n);
    AtElement(s, i, t, n + 1);
    AtBound(s, i, t);
    if IsLineOpener(t, n) {
      LineEndShift(s, t, i, n + 2);
    } else {
      BlockCloseShift(s, t, i, n + 2);
    }
  }

  lemma GapConcat(a: Text, b: Text)
    requires IsGap(a) && IsGap(b)
    ensures IsGap(a + b)
  {
    hide At, GapFrom;
    var s := a + b;
    AtWhole(s);
    AtSplit(s, 0, a, b);
    GapAtEnd(s);
    GapJoin(s, |a|, b, 0);
    GapJoin(s, 0, a, 0);
  }

  lemma GapAtEnd(s: Text)
    ensures GapFrom(s, |s|, false)
  {
  }

  lemma {:induction false} SpacesAreGap(t: Text, n: nat)
    requires AllJsonSpace(t) && n <= |t|
    ensures GapFrom(t, n, false)
    decreases |t| - n
  {
    if n < |t| {
      SpacesAreGap(t, n + 1);
    }
  }

  lemma SpaceIsGap()
    ensures IsGap([SPACE]) && IsGap([])
  {
    SpacesAreGap([SPACE], 0);
    SpacesAreGap([], 0);
  }

  lemma {:induction false} NewEntriesWellFormed(us: seq<Update>, last: Text)
    requires IsGap(last)
    ensures WellFormedEntries(true, NewEntries(us, last), IsGap, true)
  {
    hide GapFrom, Decode;
    if us != [] {
      SpaceIsGap();
      QuoteRoundTrip(us[0].key);
      QuoteRoundTrip(us[0].value);
      assert WellFormedEntry(true, NewEntry(us[0], last), IsGap, true);
      assert WellFormedEntry(true, NewEntry(us[0], []), IsGap, true);
      NewEntriesWellFormed(us[1..], last);
    }
  }

  lemma {:induction false} SetEntriesWellFormed(es: seq<Entry>, us: seq<Update>)
    requires WellFormedEntries(true, es, IsGap, true)
    ensures WellFormedEntries(true, SetEntries(es, us), IsGap, true)
    decreases |es|
  {
    hide IsGap, Decode, KeyOf, ValueFor, Without;
    if es != [] {
      var key := KeyOf(es[0].tag);
      assert WellFormedEntry(true, es[0], IsGap, true);
      assert WellFormedEntries(true, es[1..], IsGap, true);
      match ValueFor(us, key) {
        case Some(v) =>
          QuoteRoundTrip(v);
          SetEntriesWellFormed(es[1..], Without(us, key));
          assert WellFormedEntry(true, SetValue(es[0], v), IsGap, true);
        case None =>
          SetEntriesWellFormed(es[1..], us);
      }
    }
  }

  lemma SetObjectWellFormed(es: seq<Entry>, tail: Tail, us: seq<Update>)
    requires WellFormed(Group(true, es, tail), IsGap, true)
    ensures WellFormed(SetObject(es, tail, us), IsGap, true)
  {
    hide IsGap, WellFormedEntry, NewEntries, SetEntries, Absent;
    SpaceIsGap();
    SetEntriesWellFormed(es, us);
    NewEntriesWellFormed(Absent(es, us), []);
    if es == [] {
      GapConcat([SPACE], tail.ws);
      NewEntriesWellFormed(Absent(es, us), [SPACE] + tail.ws);
    }
  }

  // ---------------------------------------------------------------------------
  // What the entries of an object denote
  // ---------------------------------------------------------------------------

  function Lookup(ps: seq<Property>, key: Text): Option<Json> {
    if ps == [] then None else if ps[0].key == key then Some(ps[0].value) else Lookup(ps[1..], key)
  }

  /** The member of an object; no other value has members. */
  function Member(j: Json, key: Text): Option<Json> {
    if j.JObject? then Lookup(j.props, key) else None
  }

  function LastOf(ps: seq<Property>, key: Text): Option<Json> {
    if ps == [] then None
    else
      var r := LastOf(ps[1..], key);
      if r.Some? then r else if ps[0].key == key then Some(ps[0].value) else None
  }

  function Count(es: seq<Entry>, key: Text): nat {
    if es == [] then 0 else (if KeyOf(es[0].tag) == key then 1 else 0) + Count(es[1..], key)
  }

  lemma {:induction false} LookupPut(ps: seq<Property>, p: Property, key: Text)
    ensures Lookup(Put(ps, p), key) == if p.key == key then Some(p.value) else Lookup(ps, key)
  {
    if ps != [] && ps[0].key != p.key {
      LookupPut(ps[1..], p, key);
    }
  }

  lemma {:induction false} LookupAssign(acc: seq<Property>, ps: seq<Property>, key: Text)
    ensures Lookup(Assign(acc, ps), key) ==
            if LastOf(ps, key).Some? then LastOf(ps, key) else Lookup(acc, key)
    decreases |ps|
  {
    if ps != [] {
      LookupPut(acc, ps[0], key);
      LookupAssign(Put(acc, ps[0]), ps[1..], key);
    }
  }

  /** The last entry with a key decides what the object's member is. */
  lemma MemberIsLast(es: seq<Entry>, tail: Tail, key: Text)
    ensures Member(Denote(Group(true, es, tail)), key) == LastOf(DenoteEntries(es), key)
  {
    hide DenoteEntries;
    LookupAssign([], DenoteEntries(es), key);
  }

  lemma {:induction false} LastOfConcat(a: seq<Property>, b: seq<Property>, key: Text)
    ensures LastOf(a + b, key) == if LastOf(b, key).Some? then LastOf(b, key) else LastOf(a, key)
    decreases |a|
  {
    if a == [] {
      assert a + b == b;
    } else {
      assert (a + b)[1..] == a[1..] + b;
      LastOfConcat(a[1..], b, key);
    }
  }

  lemma {:induction false} DenotesConcat(a: seq<Entry>, b: seq<Entry>)
    ensures DenoteEntries(a + b) == DenoteEntries(a) + DenoteEntries(b)
  {
    hide Denote, KeyOf;
  }

  lemma {:induction false} CountsLast(es: seq<Entry>, key: Text)
    ensures Count(es, key) == 0 <==> LastOf(DenoteEntries(es), key).None?
    ensures Count(es, key) == 0 <==> !HasKey(es, key)
  {
    hide Denote, KeyOf;
    if es != [] {
      CountsLast(es[1..], key);
      DenotesConcat([es[0]], es[1..]);
      DenotesFirst(es);
      if HasKey(es[1..], key) {
        var k :| 0 <= k < |es[1..]| && KeyOf(es[1..][k].tag) == key;
        assert KeyOf(es[k + 1].tag) == key;
      }
      if HasKey(es, key) && KeyOf(es[0].tag) != key {
        var k :| 0 <= k < |es| && KeyOf(es[k].tag) == key;
        assert KeyOf(es[1..][k - 1].tag) == key;
      }
    }
  }

  lemma DenotesFirst(es: seq<Entry>)
    requires es != []
    ensures DenoteEntries(es)[0] == Property(KeyOf(es[0].tag), Denote(es[0].value))
    ensures DenoteEntries(es)[1..] == DenoteEntries(es[1..])
  {
    hide Denote, KeyOf;
  }

  lemma {:induction false} ValueForWithout(us: seq<Update>, key: Text, other: Text)
    ensures ValueFor(Without(us, key), other) == if key == other then None else ValueFor(us, other)
  {
    if us != [] {
      var r := Without(us[1..], key);
      ValueForWithout(us[1..], key, other);
      assert [] + r == r && ([us[0]] + r)[1..] == r;
    }
  }

  /** Replacing the first entry of each updated key decides the member unless the key is repeated. */
  lemma {:induction false} LastOfSet(es: seq<Entry>, us: seq<Update>, key: Text)
    ensures LastOf(DenoteEntries(SetEntries(es, us)), key) ==
            if ValueFor(us, key).Some? && Count(es, key) == 1 then Some(JString(ValueFor(us, key).value))
            else LastOf(DenoteEntries(es), key)
    decreases |es|
  {
    hide Denote, KeyOf, ValueFor, Without, DenoteEntries, SetValue;
    if es != [] {
      var e := es[0];
      var k := KeyOf(e.tag);
      var v := ValueFor(us, k);
      var rest := if v.Some? then Without(us, k) else us;
      var r := SetEntries(es, us);
      LastOfSet(es[1..], rest, key);
      ValueForWithout(us, k, key);
      CountsLast(es[1..], key);
      DenotesFirst(es);
      DenotesFirst(r);
      if v.Some? {
        assert r[1..] == SetEntries(es[1..], rest);
        DenotesSet(e, v.value);
      } else {
        assert r[1..] == SetEntries(es[1..], us);
      }
    }
  }

  lemma DenotesSet(e: Entry, value: Text)
    ensures KeyOf(SetValue(e, value).tag) == KeyOf(e.tag) && Denote(SetValue(e, value).value) == JString(value)
  {
    hide Decode;
    QuoteRoundTrip(value);
  }

  lemma {:induction false} LastOfNew(us: seq<Update>, last: Text, key: Text)
    requires DistinctKeys(us)
    ensures LastOf(DenoteEntries(NewEntries(us, last)), key) ==
            match ValueFor(us, key) case Some(v) => Some(JString(v)) case None => None
    decreases |us|
  {
    hide Denote, KeyOf, DenoteEntries, NewEntry;
    if us == [] {
      DenotesNothing();
    } else {
      var r := NewEntries(us, last);
      var post := if |us| == 1 then last else [];
      LastOfNew(us[1..], last, key);
      DenotesFirst(r);
      DenotesNew(us[0], post);
      assert |us| == 1 ==> us[1..] == [];
      assert r[0] == NewEntry(us[0], post) && r[1..] == NewEntries(us[1..], last);
      NoValueFor(us[1..], us[0].key);
    }
  }

  lemma {:induction false} NoValueFor(us: seq<Update>, key: Text)
    requires forall k :: 0 <= k < |us| ==> us[k].key != key
    ensures ValueFor(us, key) == None
  {
    if us != [] {
      NoValueFor(us[1..], key);
    }
  }

  lemma DenotesNothing()
    ensures DenoteEntries([]) == []
  {
  }

  lemma DenotesNew(u: Update, post: Text)
    ensures KeyOf(NewEntry(u, post).tag) == u.key && Denote(NewEntry(u, post).value) == JString(u.value)
  {
    hide Decode;
    QuoteRoundTrip(u.key);
    QuoteRoundTrip(u.value);
  }

  lemma {:induction false} AbsentDistinct(es: seq<Entry>, us: seq<Update>)
    requires DistinctKeys(us)
    ensures DistinctKeys(Absent(es, us))
    ensures forall u :: u in Absent(es, us) ==> u in us
    decreases |us|
  {
    hide HasKey;
    if us != [] {
      assert us == [us[0]] + us[1..];
      var r := Absent(es, us[1..]);
      AbsentDistinct(es, us[1..]);
      forall k | 0 <= k < |r| ensures r[k].key != us[0].key {
        assert r[k] in us[1..];
      }
      assert [] + r == r;
    }
  }

  lemma {:induction false} AbsentFinds(es: seq<Entry>, us: seq<Update>, key: Text)
    ensures ValueFor(Absent(es, us), key) == if HasKey(es, key) then None else ValueFor(us, key)
    decreases |us|
  {
    hide HasKey;
    if us != [] {
      var r := Absent(es, us[1..]);
      AbsentFinds(es, us[1..], key);
      assert [] + r == r && ([us[0]] + r)[1..] == r;
    }
  }

  /**
   * The members of an updated object: an updated key denotes its new value, unless the key is
   * repeated in the text; every other member is the old one.
   */
  lemma DenotesSetObject(es: seq<Entry>, tail: Tail, us: seq<Update>, key: Text)
    requires DistinctKeys(us)
    ensures SetObject(es, tail, us).Group? && Denote(SetObject(es, tail, us)).JObject?
    ensures Member(Denote(SetObject(es, tail, us)), key) ==
            if ValueFor(us, key).Some? && Count(es, key) <= 1 then Some(JString(ValueFor(us, key).value))
            else Member(Denote(Group(true, es, tail)), key)
  {
    hide DenoteEntries, ValueFor, NewEntries, SetEntries, Absent, LastOf, Count, HasKey, Member, Denote;
    var missing := Absent(es, us);
    var v := SetObject(es, tail, us);
    var last := if es == [] then [SPACE] + tail.ws else [];
    DenotesGroup(v);
    MemberIsLast(es, tail, key);
    MemberIsLast(v.entries, v.tail, key);
    LastOfSet(es, us, key);
    CountsLast(es, key);
    AbsentDistinct(es, us);
    AbsentFinds(es, us, key);
    LastOfNew(missing, last, key);
    DenotesConcat(NewEntries(missing, []), SetEntries(es, us));
    LastOfConcat(DenoteEntries(NewEntries(missing, [])), DenoteEntries(SetEntries(es, us)), key);
    if missing == [] {
      ValueForNone(key);
    }
    if es == [] {
      assert SetEntries(es, us) == [];
      DenotesNothing();
      CountsNothing(key);
    }
  }

  lemma CountsNothing(key: Text)
    ensures Count([], key) == 0
  {
  }

  lemma ValueForNone(key: Text)
    ensures ValueFor([], key) == None
  {
  }

  lemma DenotesGroup(v: Syntax)
    requires v.Group? && v.obj
    ensures Denote(v).JObject?
  {
  }

  lemma {:induction false} LastOfWithValue(es: seq<Entry>, k: nat, w: Syntax, key: Text)
    requires k < |es| && forall j :: 0 <= j < k ==> KeyOf(es[j].tag) != KeyOf(es[k].tag)
    ensures LastOf(DenoteEntries(WithValue(es, k, w)), key) ==
            if key == KeyOf(es[k].tag) && Count(es, key) == 1 then Some(Denote(w))
            else LastOf(DenoteEntries(es), key)
    decreases k
  {
    hide Denote, KeyOf, DenoteEntries;
    var r := WithValue(es, k, w);
    DenotesFirst(es);
    DenotesFirst(r);
    CountsLast(es[1..], key);
    if k == 0 {
      assert r[1..] == es[1..];
    } else {
      assert r[1..] == WithValue(es[1..], k - 1, w) && r[0] == es[0];
      LastOfWithValue(es[1..], k - 1, w, key);
    }
  }
}
