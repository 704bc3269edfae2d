// What an update does to any text it accepts, whether or not it is a configuration.

module ConfigAnyText {
  import opened Texts
  import opened JsonText
  import opened JsoncBlanking
  import opened ConfigScan
  import opened TextEdits
  import opened ConfigUpdate
  import opened ConfigRoundTrip

  // ---------------------------------------------------------------------------
  // Spans in any text
  // ---------------------------------------------------------------------------

  /** Behind `from` and up to `close`, each span ends in front of the next one. */
  predicate InOrder(ps: seq<PropSpan>, from: nat, close: nat)
    decreases |ps|
  {
    if ps == [] then from <= close else from < ps[0].start <= ps[0].end && InOrder(ps[1..], ps[0].end, close)
  }

  lemma {:induction false} ScalarStopBound(s: Text, i: nat)
    requires i <= |s|
    ensures ScalarStop(s, i) <= |s|
    decreases |s| - i
  {
    if i < |s| {
      ScalarStopBound(s, i + 1);
    }
  }

  lemma {:induction false} LiteralBound(s: Text, i: nat)
    ensures StringEndAt(s, i).Some? ==> i < StringEndAt(s, i).value <= |s|
    decreases |s| - i
  {
    if i < |s| {
      LiteralBound(s, i + 1);
      LiteralBound(s, i + 2);
    }
  }

  lemma PropBound(s: Text, i: nat)
    requires i < |s| && s[i] == QUOTE && PropAt(s, i).Ok?
    ensures var (p, n) := PropAt(s, i).value; i < p.start <= p.end <= n <= |s|
  {
    hide SkipSpace, StringEndAt, CloseAt, ScalarStop, Decode;
    LiteralBound(s, i + 1);
    var e := StringEndAt(s, i + 1).value;
    var v := SkipSpace(s, SkipSpace(s, e) + 1);
    LiteralBound(s, v + 1);
    ScalarStopBound(s, v);
  }

  lemma {:induction false} InOrderBehind(ps: seq<PropSpan>, from: nat, to: nat, close: nat)
    requires InOrder(ps, to, close) && from <= to
    ensures InOrder(ps, from, close)
    decreases |ps|
  {
  }

  lemma {:induction false} PropsInOrder(s: Text, i: nat)
    requires i <= |s| && PropsAt(s, i).Ok?
    ensures var (ps, close) := PropsAt(s, i).value; InOrder(ps, i, close) && close < |s| && s[close] == RBRACE
    decreases |s| - i
  {
    hide SkipSpace, PropAt;
    var j := SkipSpace(s, i);
    if s[j] == QUOTE {
      PropBound(s, j);
      var (p, n) := PropAt(s, j).value;
      PropsInOrder(s, n);
      InOrderBehind(PropsAt(s, n).value.0, p.end, n, PropsAt(s, n).value.1);
    }
  }

  lemma ObjectInOrder(s: Text, start: nat)
    requires start <= |s| && ObjectAt(s, start).Ok?
    ensures var o := ObjectAt(s, start).value;
            && start <= o.open < o.close < |s| && s[o.open] == LBRACE && s[o.close] == RBRACE
            && InOrder(o.props, o.open + 1, o.close)
  {
    hide SkipSpace, PropsAt;
    var i := SkipSpace(s, start);
    PropsInOrder(s, i + 1);
    InOrderBound(PropsAt(s, i + 1).value.0, i + 1, PropsAt(s, i + 1).value.1);
  }

  lemma {:induction false} InOrderBound(ps: seq<PropSpan>, from: nat, close: nat)
    requires InOrder(ps, from, close)
    ensures from <= close
    ensures forall k :: 0 <= k < |ps| ==> from < ps[k].start <= ps[k].end <= close
    ensures forall j, k :: 0 <= j < k < |ps| ==> ps[j].end < ps[k].start
    decreases |ps|
  {
    if ps != [] {
      InOrderBound(ps[1..], ps[0].end, close);
      assert forall k :: 1 <= k < |ps| ==> ps[k] == ps[1..][k - 1];
    }
  }

  // ---------------------------------------------------------------------------
  // Edits in any text
  // ---------------------------------------------------------------------------

  predicate InFront(e: Edit, f: Edit) {
    e.start < f.start && e.end <= f.start
  }

  /** Edits inside `from..size`, of which any two are apart. */
  ghost predicate AreApart(es: seq<Edit>, from: nat, size: nat) {
    && (forall k :: 0 <= k < |es| ==> from <= es[k].start <= es[k].end <= size)
    && (forall j, k :: 0 <= j < k < |es| ==> InFront(es[j], es[k]) || InFront(es[k], es[j]))
  }

  lemma {:induction false} FoundIs(ps: seq<PropSpan>, key: Text)
    ensures FindProp(ps, key).Some? ==> FindProp(ps, key).value in ps && FindProp(ps, key).value.key == key
  {
    if ps != [] {
      FoundIs(ps[1..], key);
      assert ps == [ps[0]] + ps[1..];
    }
  }

  lemma {:induction false} FoundEditFrom(ps: seq<PropSpan>, us: seq<Update>, k: nat) returns (i: nat)
    requires k < |FoundEdits(ps, us)|
    ensures i < |us| && FindProp(ps, us[i].key).Some?
    ensures var p := FindProp(ps, us[i].key).value; FoundEdits(ps, us)[k] == Edit(p.start, p.end, Quote(us[i].value))
    ensures i >= k
  {
    hide FindProp, Quote;
    if FindProp(ps, us[0].key).Some? && k == 0 {
      i := 0;
    } else {
      i := FoundEditFrom(ps, us[1..], if FindProp(ps, us[0].key).Some? then k - 1 else k);
      i := i + 1;
    }
  }

  /** Different updates that are found are found at different properties. */
  lemma {:induction false} FoundDiffer(ps: seq<PropSpan>, us: seq<Update>, j: nat, k: nat) returns (a: nat, b: nat)
    requires j < k < |FoundEdits(ps, us)| && DistinctKeys(us)
    ensures a < |us| && b < |us| && us[a].key != us[b].key
    ensures FindProp(ps, us[a].key).Some? && FindProp(ps, us[b].key).Some?
    ensures var p, q := FindProp(ps, us[a].key).value, FindProp(ps, us[b].key).value;
            && FoundEdits(ps, us)[j] == Edit(p.start, p.end, Quote(us[a].value))
            && FoundEdits(ps, us)[k] == Edit(q.start, q.end, Quote(us[b].value))
    decreases |us|
  {
    hide FindProp, Quote;
    var found := FindProp(ps, us[0].key).Some?;
    if found && j == 0 {
      a := 0;
      b := FoundEditFrom(ps, us[1..], k - 1);
      b := b + 1;
    } else {
      var n := if found then 1 else 0;
      assert DistinctKeys(us[1..]);
      a, b := FoundDiffer(ps, us[1..], j - n, k - n);
      a, b := a + 1, b + 1;
    }
  }

  lemma FoundApart(o: ObjectSpan, us: seq<Update>)
    requires InOrder(o.props, o.open + 1, o.close) && DistinctKeys(us)
    ensures AreApart(FoundEdits(o.props, us), o.open + 2, o.close)
  {
    hide FindProp, Quote, FoundEdits, DistinctKeys, InOrder;
    var es := FoundEdits(o.props, us);
    InOrderBound(o.props, o.open + 1, o.close);
    forall k | 0 <= k < |es| ensures o.open + 2 <= es[k].start <= es[k].end <= o.close {
      var i := FoundEditFrom(o.props, us, k);
      FoundIs(o.props, us[i].key);
    }
    forall j, k | 0 <= j < k < |es| ensures InFront(es[j], es[k]) || InFront(es[k], es[j]) {
      var a, b := FoundDiffer(o.props, us, j, k);
      FoundIs(o.props, us[a].key);
      FoundIs(o.props, us[b].key);
      var x :| 0 <= x < |o.props| && o.props[x] == FindProp(o.props, us[a].key).value;
      var y :| 0 <= y < |o.props| && o.props[y] == FindProp(o.props, us[b].key).value;
    }
  }

  lemma ObjectEditsApart(o: ObjectSpan, us: seq<Update>)
    requires InOrder(o.props, o.open + 1, o.close) && DistinctKeys(us)
    ensures AreApart(ObjectEdits(o, us), o.open + 1, o.close)
  {
    hide FoundEdits, Missing, InsertionText, InOrder, DistinctKeys;
    FoundApart(o, us);
    InOrderBound(o.props, o.open + 1, o.close);
  }

  lemma ApartIsDistinct(es: seq<Edit>, from: nat, size: nat)
    requires AreApart(es, from, size)
    ensures DistinctStarts(es)
  {
  }

  /** Edits inside `from..size`, each in front of all that follow. */
  ghost predicate InSequence(es: seq<Edit>, from: nat, size: nat) {
    && (forall k :: 0 <= k < |es| ==> from <= es[k].start <= es[k].end <= size)
    && (forall j, k :: 0 <= j < k < |es| ==> InFront(es[j], es[k]))
  }

  lemma InWiderSequence(es: seq<Edit>, from: nat, size: nat, wider: nat)
    requires InSequence(es, from, size) && size <= wider
    ensures InSequence(es, 0, wider)
  {
  }

  /** A descending list of edits that are apart, read backwards, ascends without overlap. */
  lemma {:induction false} ApartAscends(es: seq<Edit>, from: nat, size: nat)
    requires from <= size && InSequence(es, from, size)
    ensures Ascending(es, from, size)
    decreases |es|
  {
    if es != [] {
      assert forall k :: 0 <= k < |es[1..]| ==> es[1..][k] == es[k + 1];
      ApartAscends(es[1..], es[0].end, size);
    }
  }

  /** The sorted edits, from front to back, and what applying them comes to. */
  lemma SortedSplices(raw: Text, es: seq<Edit>, from: nat, size: nat)
    requires AreApart(es, from, size) && from <= size <= |raw|
    ensures var a := Reverse(SortDescending(es));
            && Ascending(a, from, size) && (forall e :: e in a <==> e in es)
            && ApplyEdits(raw, SortDescending(es)) == Splice(raw, 0, a)
  {
    hide SortDescending, ApplyEdits, Splice, Ascending, AreApart, InSequence, DistinctStarts, Reverse;
    var ds := SortDescending(es);
    var a := Reverse(ds);
    ApartIsDistinct(es, from, size);
    SortDescends(es);
    ReversedHolds(ds);
    ReversedApart(es, ds, from, size);
    ApartAscends(a, from, size);
    InWiderSequence(a, from, size, |raw|);
    ApartAscends(a, 0, |raw|);
    AppliedIs(raw, ds);
  }

  lemma ReversedApart(es: seq<Edit>, ds: seq<Edit>, from: nat, size: nat)
    requires AreApart(es, from, size) && Descending(ds) && forall e :: e in ds ==> e in es
    ensures InSequence(Reverse(ds), from, size)
  {
    hide AreApart, InFront, Descending;
    var a := Reverse(ds);
    forall k | 0 <= k < |ds| ensures ds[k] in es {
      assert ds[k] in ds;
    }
    forall j, k | 0 <= j < k < |a| ensures InFront(a[j], a[k]) {
      SortedApart(es, ds, |ds| - 1 - k, |ds| - 1 - j, from, size);
    }
    forall k | 0 <= k < |a| ensures from <= a[k].start <= a[k].end <= size {
      InRange(es, ds[|ds| - 1 - k], from, size);
    }
  }

  lemma AppliedIs(raw: Text, ds: seq<Edit>)
    requires Ascending(Reverse(ds), 0, |raw|)
    ensures ApplyEdits(raw, ds) == Splice(raw, 0, Reverse(ds))
  {
    hide ApplyEdits, Splice, Ascending;
    ApplySplices(raw, Reverse(ds));
    ReverseTwice(ds);
  }

  lemma InRange(es: seq<Edit>, e: Edit, from: nat, size: nat)
    requires AreApart(es, from, size) && e in es
    ensures from <= e.start <= e.end <= size
  {
    var x :| 0 <= x < |es| && es[x] == e;
  }

  lemma SortedApart(es: seq<Edit>, ds: seq<Edit>, j: nat, k: nat, from: nat, size: nat)
    requires AreApart(es, from, size) && Descending(ds) && j < k < |ds| && ds[j] in es && ds[k] in es
    ensures InFront(ds[k], ds[j])
  {
    var x :| 0 <= x < |es| && es[x] == ds[j];
    var y :| 0 <= y < |es| && es[y] == ds[k];
    assert ds[j].start > ds[k].start;
  }

  lemma ReversedHolds(es: seq<Edit>)
    ensures forall e :: e in Reverse(es) <==> e in es
  {
    var r := Reverse(es);
    forall e ensures e in r <==> e in es {
      if e in r {
        var k :| 0 <= k < |r| && r[k] == e;
        assert es[|es| - 1 - k] == e;
      }
      if e in es {
        var k :| 0 <= k < |es| && es[k] == e;
        assert r[|es| - 1 - k] == e;
      }
    }
  }

  lemma ReverseTwice(es: seq<Edit>)
    ensures Reverse(Reverse(es)) == es
  {
    var r := Reverse(Reverse(es));
    assert forall k :: 0 <= k < |es| ==> r[k] == es[k];
  }

  // ---------------------------------------------------------------------------
  // Updates of any text
  // ---------------------------------------------------------------------------

  lemma {:induction false} StringMapApart(t: Text, key: Text, us: seq<Update>)
    requires DistinctKeys(us) && StringMapEdits(t, key, us).Ok?
    ensures AreApart(StringMapEdits(t, key, us).value, 0, |t|)
  {
    hide ObjectAt, FindProp, ObjectEdits, NewPropertyText, DistinctKeys, InOrder;
    ObjectInOrder(t, 0);
    var root := ObjectAt(t, 0).value;
    match FindProp(root.props, key) {
      case None =>
      case Some(p) =>
        FoundIs(root.props, key);
        InOrderBound(root.props, root.open + 1, root.close);
        ObjectInOrder(t, p.start);
        var o := ObjectAt(t, p.start).value;
        ObjectEditsApart(o, us);
    }
  }

  lemma CoreEnvApart(t: Text, us: seq<Update>)
    requires DistinctKeys(us) && CoreEnvEdits(t, us).Ok?
    ensures AreApart(CoreEnvEdits(t, us).value, 0, |t|)
  {
    hide ObjectAt, FindProp, ObjectEdits, DistinctKeys, InOrder;
    ObjectInOrder(t, 0);
    var root := ObjectAt(t, 0).value;
    FoundIs(root.props, ENV);
    InOrderBound(root.props, root.open + 1, root.close);
    var p := FindProp(root.props, ENV).value;
    ObjectInOrder(t, p.start);
    var env := ObjectAt(t, p.start).value;
    FoundIs(env.props, CORE);
    InOrderBound(env.props, env.open + 1, env.close);
    var q := FindProp(env.props, CORE).value;
    ObjectInOrder(t, q.start);
    ObjectEditsApart(ObjectAt(t, q.start).value, us);
  }

  /**
   * Whatever text an update accepts, the result is the text with disjoint edits spliced in: every
   * character outside the spans of the values that it replaces is kept.
   */
  lemma UpdateSplices(raw: Text, key: Text, us: seq<Update>) returns (es: seq<Edit>)
    requires DistinctKeys(us) && UpdateStringMap(raw, key, us).Ok?
    ensures Ascending(es, 0, |raw|) && UpdateStringMap(raw, key, us).value == Splice(raw, 0, es)
    ensures var edits := StringMapEdits(StripText(raw, 0), key, us); edits.Ok? && forall e :: e in es <==> e in edits.value
  {
    hide StringMapEdits, StripText, SortDescending, ApplyEdits, Splice, Ascending, AreApart;
    var t := StripText(raw, 0);
    StringMapApart(t, key, us);
    var edits := StringMapEdits(t, key, us).value;
    SortedSplices(raw, edits, 0, |raw|);
    es := Reverse(SortDescending(edits));
  }

  lemma CoreUpdateSplices(raw: Text, us: seq<Update>) returns (es: seq<Edit>)
    requires DistinctKeys(us) && UpdateCoreEnv(raw, us).Ok?
    ensures Ascending(es, 0, |raw|) && UpdateCoreEnv(raw, us).value == Splice(raw, 0, es)
    ensures var edits := CoreEnvEdits(StripText(raw, 0), us); edits.Ok? && forall e :: e in es <==> e in edits.value
  {
    hide CoreEnvEdits, StripText, SortDescending, ApplyEdits, Splice, Ascending, AreApart;
    var t := StripText(raw, 0);
    CoreEnvApart(t, us);
    var edits := CoreEnvEdits(t, us).value;
    SortedSplices(raw, edits, 0, |raw|);
    es := Reverse(SortDescending(edits));
  }
}
