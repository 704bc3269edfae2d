// Updating a printed document prints the updated document, which parses to the old value with
// exactly the requested entries set.

module ConfigRoundTrip {
  import opened Results
  import opened Texts
  import opened JsonText
  import opened JsonRoundTrip
  import opened ConfigScan
  import opened TextEdits
  import opened ConfigUpdate

  // ---------------------------------------------------------------------------
  // Updating syntax
  // ---------------------------------------------------------------------------

  ghost predicate DistinctKeys(us: seq<Update>) {
    forall a, b :: 0 <= a < b < |us| ==> us[a].key != us[b].key
  }

  function ValueFor(us: seq<Update>, key: Text): Option<Text> {
    if us == [] then None
    else if us[0].key == key then Some(us[0].value)
    else ValueFor(us[1..], key)
  }

  function Without(us: seq<Update>, key: Text): seq<Update> {
    if us == [] then [] else (if us[0].key == key then [] else [us[0]]) + Without(us[1..], key)
  }

  function SetValue(e: Entry, value: Text): Entry {
    e.(value := Str(QuoteBody(value)))
  }

  /** The first entry of each updated key gets its new value. */
  function SetEntries(es: seq<Entry>, us: seq<Update>): (r: seq<Entry>)
    ensures |r| == |es|
  {
    if es == [] then []
    else match ValueFor(us, KeyOf(es[0].tag))
         case Some(v) => [SetValue(es[0], v)] + SetEntries(es[1..], Without(us, KeyOf(es[0].tag)))
         case None => [es[0]] + SetEntries(es[1..], us)
  }

  predicate HasKey(es: seq<Entry>, key: Text) {
    exists k :: 0 <= k < |es| && KeyOf(es[k].tag) == key
  }

  /** The updates whose key no entry has. */
  function Absent(es: seq<Entry>, us: seq<Update>): seq<Update> {
    if us == [] then [] else (if HasKey(es, us[0].key) then [] else [us[0]]) + Absent(es, us[1..])
  }

  function NewEntry(u: Update, post: Text): Entry {
    Entry([SPACE], Label(QuoteBody(u.key), [], [SPACE]), Str(QuoteBody(u.value)), post)
  }

  /** New entries; the last one is followed by `last`. */
  function NewEntries(us: seq<Update>, last: Text): seq<Entry> {
    if us == [] then []
    else if |us| == 1 then [NewEntry(us[0], last)]
    else [NewEntry(us[0], [])] + NewEntries(us[1..], last)
  }

  /** The object with its entries updated: known keys in place, the others in front. */
  function SetObject(es: seq<Entry>, tail: Tail, us: seq<Update>): Syntax {
    var missing := Absent(es, us);
    if missing == [] then Group(true, SetEntries(es, us), tail)
    else if es == [] then Group(true, NewEntries(missing, [SPACE] + tail.ws), NoComma([]))
    else Group(true, NewEntries(missing, []) + SetEntries(es, us), tail)
  }

  // ---------------------------------------------------------------------------
  // The edits in the order of the text
  // ---------------------------------------------------------------------------

  /** The replacements in a printed entry list that starts at `i`, in ascending order. */
  function EntryEdits(es: seq<Entry>, i: nat, us: seq<Update>): seq<Edit> {
    if es == [] then []
    else
      var next := i + |PrintEntry(es[0])| + 1;
      match ValueFor(us, KeyOf(es[0].tag))
      case Some(v) =>
        var p := SpanOf(es[0], i);
        [Edit(p.start, p.end, Quote(v))] + EntryEdits(es[1..], next, Without(us, KeyOf(es[0].tag)))
      case None => EntryEdits(es[1..], next, us)
  }

  lemma {:induction false} WithoutFinds(us: seq<Update>, key: Text)
    requires DistinctKeys(us)
    ensures DistinctKeys(Without(us, key)) && |Without(us, key)| <= |us|
    ensures forall u :: u in Without(us, key) <==> u in us && u.key != key
  {
    if us != [] {
      assert us == [us[0]] + us[1..];
      WithoutFinds(us[1..], key);
      var r := Without(us[1..], key);
      forall k | 0 <= k < |r| ensures r[k].key != us[0].key {
        assert r[k] in us[1..];
      }
    }
  }

  lemma {:induction false} ValueForFinds(us: seq<Update>, key: Text)
    requires DistinctKeys(us)
    ensures ValueFor(us, key).Some? ==> Update(key, ValueFor(us, key).value) in us
    ensures forall u :: u in us && u.key == key ==> ValueFor(us, key) == Some(u.value)
  {
    if us != [] {
      assert us == [us[0]] + us[1..];
      ValueForFinds(us[1..], key);
      if us[0].key == key {
        assert us[0] == Update(key, us[0].value);
        assert forall k :: 0 <= k < |us[1..]| ==> us[1..][k] == us[k + 1];
      }
    }
  }

  /** `x` replaces the value of the first property with the key of one of the updates. */
  ghost predicate IsReplacement(ps: seq<PropSpan>, us: seq<Update>, x: Edit) {
    exists u :: u in us && Replaces(ps, u, x)
  }

  predicate Replaces(ps: seq<PropSpan>, u: Update, x: Edit) {
    var p := FindProp(ps, u.key);
    p.Some? && x == Edit(p.value.start, p.value.end, Quote(u.value))
  }

  lemma {:induction false} FoundEditsAre(ps: seq<PropSpan>, us: seq<Update>, x: Edit)
    ensures x in FoundEdits(ps, us) <==> IsReplacement(ps, us, x)
  {
    hide FindProp, Quote;
    if us != [] {
      assert us == [us[0]] + us[1..];
      FoundEditsAre(ps, us[1..], x);
      assert x in FoundEdits(ps, us) <==> Replaces(ps, us[0], x) || x in FoundEdits(ps, us[1..]);
    }
  }

  lemma {:induction false} EntryEditsAre(es: seq<Entry>, i: nat, us: seq<Update>, x: Edit)
    requires DistinctKeys(us)
    ensures x in EntryEdits(es, i, us) <==> IsReplacement(Spans(es, i), us, x)
  {
    hide Quote, PrintEntry, SpanOf, KeyOf, Spans, Without, ValueFor, FindProp;
    if es == [] {
      NothingFound(i, us, x);
    } else {
      var key := KeyOf(es[0].tag);
      var next := i + |PrintEntry(es[0])| + 1;
      SpansStep(es, i);
      ValueForFinds(us, key);
      WithoutFinds(us, key);
      var rest := if ValueFor(us, key).Some? then Without(us, key) else us;
      EntryEditsAre(es[1..], next, rest, x);
      FirstOrRest(es, i, us, rest, x);
    }
  }

  lemma NothingFound(i: nat, us: seq<Update>, x: Edit)
    ensures !IsReplacement(Spans([], i), us, x) && EntryEdits([], i, us) == []
  {
    assert Spans([], i) == [];
  }

  lemma FirstOrRest(es: seq<Entry>, i: nat, us: seq<Update>, rest: seq<Update>, x: Edit)
    requires es != [] && DistinctKeys(us)
    requires var key := KeyOf(es[0].tag);
             && (ValueFor(us, key).Some? ==> Update(key, ValueFor(us, key).value) in us)
             && (forall u :: u in us && u.key == key ==> ValueFor(us, key) == Some(u.value))
             && (forall u :: u in rest <==> u in us && u.key != key)
    ensures var key, next := KeyOf(es[0].tag), i + |PrintEntry(es[0])| + 1;
            IsReplacement(Spans(es, i), us, x) <==>
            || (ValueFor(us, key).Some?
                && x == Edit(SpanOf(es[0], i).start, SpanOf(es[0], i).end, Quote(ValueFor(us, key).value)))
            || IsReplacement(Spans(es[1..], next), rest, x)
  {
    hide Quote, PrintEntry, KeyOf, Spans, ValueFor;
    SpansStep(es, i);
    var ps, qs := Spans(es, i), Spans(es[1..], i + |PrintEntry(es[0])| + 1);
    var key := KeyOf(es[0].tag);
    assert ps[0] == SpanOf(es[0], i) && ps[0].key == key && ps[1..] == qs;
    if IsReplacement(ps, us, x) {
      var u :| u in us && Replaces(ps, u, x);
      if u.key != key {
        assert u in rest && Replaces(qs, u, x);
      }
    }
    if ValueFor(us, key).Some? {
      var u := Update(key, ValueFor(us, key).value);
      assert Replaces(ps, u, Edit(ps[0].start, ps[0].end, Quote(u.value)));
    }
    if IsReplacement(qs, rest, x) {
      var u :| u in rest && Replaces(qs, u, x);
      assert u in us && Replaces(ps, u, x);
    }
  }

  /** The spans of a printed entry list lie one behind the other. */
  lemma {:induction false} SpansAscend(es: seq<Entry>, i: nat)
    ensures forall k :: 0 <= k < |es| ==> i <= Spans(es, i)[k].start
    ensures forall a, b :: 0 <= a < b < |es| ==> Spans(es, i)[a].start < Spans(es, i)[b].start
  {
    hide PrintEntry, KeyOf, Spans;
    if es != [] {
      var next := i + |PrintEntry(es[0])| + 1;
      var rest := Spans(es[1..], next);
      SpansStep(es, i);
      EntryLength(es[0]);
      SpansAscend(es[1..], next);
      ConsAscends(SpanOf(es[0], i), rest);
    }
  }

  lemma ConsAscends(p: PropSpan, ps: seq<PropSpan>)
    requires forall k :: 0 <= k < |ps| ==> p.start < ps[k].start
    requires forall a, b :: 0 <= a < b < |ps| ==> ps[a].start < ps[b].start
    ensures var r := [p] + ps;
            && (forall k :: 0 <= k < |r| ==> p.start <= r[k].start)
            && (forall a, b :: 0 <= a < b < |r| ==> r[a].start < r[b].start)
  {
  }

  lemma {:induction false} EditsAscend(es: seq<Entry>, i: nat, us: seq<Update>, size: nat)
    requires i + |PrintEntries(es)| <= size
    ensures Ascending(EntryEdits(es, i, us), i, size)
    ensures var r := EntryEdits(es, i, us);
            && (forall k :: 0 <= k < |r| ==> i + |es[0].pre| + |PrintLabel(es[0].tag)| <= r[k].start)
            && (forall a, b :: 0 <= a < b < |r| ==> r[a].start < r[b].start)
    decreases |es|
  {
    hide Quote, PrintEntry, KeyOf, Without, ValueFor, PrintLabel, Print;
    if es != [] {
      var e := es[0];
      var next := i + |PrintEntry(e)| + 1;
      EntryLength(e);
      EntriesLength(es);
      var rest := if ValueFor(us, KeyOf(e.tag)).Some? then Without(us, KeyOf(e.tag)) else us;
      if |es| > 1 {
        EditsAscend(es[1..], next, rest, size);
        AscendingFrom(EntryEdits(es[1..], next, rest), SpanOf(e, i).end, next, size);
        AscendingFrom(EntryEdits(es[1..], next, rest), i, next, size);
      }
    }
  }

  lemma EntriesLength(es: seq<Entry>)
    requires es != []
    ensures |PrintEntries(es)| ==
            |PrintEntry(es[0])| + if |es| == 1 then 0 else 1 + |PrintEntries(es[1..])|
  {
    hide PrintEntry;
  }

  lemma AscendingFrom(es: seq<Edit>, from: nat, to: nat, size: nat)
    requires from <= to && Ascending(es, to, size)
    ensures Ascending(es, from, size)
  {
    AscendingBound(es, to, size);
  }

  // ---------------------------------------------------------------------------
  // Sorting the edits of an object
  // ---------------------------------------------------------------------------

  lemma {:induction false} FindsKey(es: seq<Entry>, i: nat, key: Text)
    ensures FindProp(Spans(es, i), key).Some? <==> HasKey(es, key)
  {
    hide PrintEntry, KeyOf, Spans, SpanOf;
    if es == [] {
      assert Spans(es, i) == [] by { NoSpans(i); }
    } else {
      SpansStep(es, i);
      FindsKey(es[1..], i + |PrintEntry(es[0])| + 1, key);
      assert es == [es[0]] + es[1..];
      SpanKey(es[0], i);
      if HasKey(es[1..], key) {
        var k :| 0 <= k < |es[1..]| && KeyOf(es[1..][k].tag) == key;
        assert KeyOf(es[k + 1].tag) == key;
      }
      if HasKey(es, key) && KeyOf(es[0].tag) != key {
        var k :| 0 <= k < |es| && KeyOf(es[k].tag) == key;
        assert KeyOf(es[1..][k - 1].tag) == key;
      }
    }
  }

  lemma NoSpans(i: nat)
    ensures Spans([], i) == []
  {
  }

  lemma SpanKey(e: Entry, i: nat)
    ensures SpanOf(e, i).key == KeyOf(e.tag)
  {
  }

  lemma {:induction false} MissingAreAbsent(es: seq<Entry>, i: nat, us: seq<Update>)
    ensures Missing(Spans(es, i), us) == Absent(es, us)
  {
    hide Spans, HasKey, FindProp;
    if us != [] {
      FindsKey(es, i, us[0].key);
      MissingAreAbsent(es, i, us[1..]);
    }
  }

  lemma {:induction false} FoundProp(ps: seq<PropSpan>, key: Text)
    ensures FindProp(ps, key).Some? ==> FindProp(ps, key).value in ps && FindProp(ps, key).value.key == key
  {
    if ps != [] {
      assert ps == [ps[0]] + ps[1..];
      FoundProp(ps[1..], key);
    }
  }

  ghost predicate SpansApart(ps: seq<PropSpan>) {
    forall a, b :: 0 <= a < b < |ps| ==> ps[a].start < ps[b].start
  }

  lemma SameStart(ps: seq<PropSpan>, p: PropSpan, q: PropSpan)
    requires SpansApart(ps) && p in ps && q in ps && p.start == q.start
    ensures p == q
  {
  }

  lemma {:induction false} FoundApart(ps: seq<PropSpan>, us: seq<Update>)
    requires SpansApart(ps) && DistinctKeys(us)
    ensures DistinctStarts(FoundEdits(ps, us))
  {
    hide FindProp, Quote;
    if us != [] {
      var rest := FoundEdits(ps, us[1..]);
      FoundApart(ps, us[1..]);
      var p := FindProp(ps, us[0].key);
      FoundProp(ps, us[0].key);
      if p.Some? {
        forall k | 0 <= k < |rest| ensures rest[k].start != p.value.start {
          assert rest[k] in rest;
          FoundEditsAre(ps, us[1..], rest[k]);
          var u :| u in us[1..] && Replaces(ps, u, rest[k]);
          FoundProp(ps, u.key);
          if rest[k].start == p.value.start {
            SameStart(ps, p.value, FindProp(ps, u.key).value);
          }
        }
      }
    }
  }

  /** The edits of a printed object in the order of the text. */
  function AscendingEdits(o: ObjectSpan, es: seq<Entry>, us: seq<Update>): seq<Edit> {
    var missing := Absent(es, us);
    (if missing == [] then [] else [Edit(o.open + 1, o.open + 1, InsertionText(o, missing))])
    + EntryEdits(es, o.open + 1, us)
  }

  ghost predicate HasLabels(es: seq<Entry>) {
    forall k :: 0 <= k < |es| ==> es[k].tag.Label?
  }

  lemma LabelIsLong(l: Label)
    requires l.Label?
    ensures |PrintLabel(l)| >= 3
  {
  }

  /** The replacements are collected in the order of the updates; sorted, they are those of the text. */
  lemma SameReplacements(es: seq<Entry>, i: nat, us: seq<Update>)
    requires DistinctKeys(us)
    ensures var found, inner := FoundEdits(Spans(es, i), us), EntryEdits(es, i, us);
            && DistinctStarts(found) && (forall x :: x in found <==> x in inner)
            && (forall a, b :: 0 <= a < b < |inner| ==> inner[a].start < inner[b].start)
            && Ascending(inner, i, i + |PrintEntries(es)|)
  {
    hide PrintEntries, PrintLabel, Spans, EntryEdits, FoundEdits, FindProp, IsReplacement, Ascending;
    SpansAscend(es, i);
    FoundApart(Spans(es, i), us);
    EditsAscend(es, i, us, i + |PrintEntries(es)|);
    forall x ensures x in FoundEdits(Spans(es, i), us) <==> x in EntryEdits(es, i, us) {
      FoundEditsAre(Spans(es, i), us, x);
      EntryEditsAre(es, i, us, x);
    }
  }

  lemma DistinctAppend(found: seq<Edit>, e: Edit)
    requires DistinctStarts(found) && forall x :: x in found ==> x.start > e.start
    ensures DistinctStarts(found + [e])
  {
    forall k | 0 <= k < |found| ensures found[k].start > e.start {
      assert found[k] in found;
    }
  }

  lemma AscendPrepend(e: Edit, inner: seq<Edit>)
    requires forall a, b :: 0 <= a < b < |inner| ==> inner[a].start < inner[b].start
    requires forall x :: x in inner ==> x.start > e.start
    ensures forall a, b :: 0 <= a < b < |[e] + inner| ==> ([e] + inner)[a].start < ([e] + inner)[b].start
  {
    forall k | 0 <= k < |inner| ensures inner[k].start > e.start {
      assert inner[k] in inner;
    }
  }

  /** Two lists of the same edits, one of them ascending: sorting the other reverses it. */
  lemma SortsToReverse(found: seq<Edit>, inner: seq<Edit>)
    requires DistinctStarts(found) && forall x :: x in found <==> x in inner
    requires forall a, b :: 0 <= a < b < |inner| ==> inner[a].start < inner[b].start
    ensures SortDescending(found) == Reverse(inner)
  {
    hide SortDescending, Reverse, DistinctStarts, Descending;
    SortDescends(found);
    ReverseDescends(inner);
    DescendingUnique(SortDescending(found), Reverse(inner));
  }

  /** Sorting `found` and, if any, an insertion in front of all of it reverses the ascending order. */
  lemma SortsAll(found: seq<Edit>, inner: seq<Edit>, first: seq<Edit>)
    requires DistinctStarts(found) && forall x :: x in found <==> x in inner
    requires forall a, b :: 0 <= a < b < |inner| ==> inner[a].start < inner[b].start
    requires |first| <= 1 && forall x :: x in inner && first != [] ==> x.start > first[0].start
    ensures SortDescending(found + first) == Reverse(first + inner)
  {
    hide SortDescending, Reverse, DistinctStarts;
    if first == [] {
      assert found + first == found && first + inner == inner;
      SortsToReverse(found, inner);
    } else {
      assert first == [first[0]];
      DistinctAppend(found, first[0]);
      AscendPrepend(first[0], inner);
      SortsToReverse(found + first, first + inner);
    }
  }

  /** Sorting the collected edits puts them in the reverse order of the text. */
  lemma SortsEdits(o: ObjectSpan, es: seq<Entry>, us: seq<Update>)
    requires o.props == Spans(es, o.open + 1) && HasLabels(es) && DistinctKeys(us)
    ensures SortDescending(ObjectEdits(o, us)) == Reverse(AscendingEdits(o, es, us))
    ensures Ascending(AscendingEdits(o, es, us), o.open + 1, o.open + 1 + |PrintEntries(es)|)
  {
    hide InsertionText, PrintEntries, Spans, Absent, EntryEdits, FoundEdits, Missing, SortDescending, Reverse, Ascending,
         DistinctStarts;
    var i, missing := o.open + 1, Absent(es, us);
    var first := if missing == [] then [] else [Edit(i, i, InsertionText(o, missing))];
    MissingAreAbsent(es, i, us);
    SameReplacements(es, i, us);
    InnerStarts(es, i, us);
    SortsAll(FoundEdits(o.props, us), EntryEdits(es, i, us), first);
    AscendingInsertion(o, es, us);
  }

  lemma InnerStarts(es: seq<Entry>, i: nat, us: seq<Update>)
    requires HasLabels(es)
    ensures forall x :: x in EntryEdits(es, i, us) ==> x.start > i
  {
    hide PrintEntries, PrintLabel, EntryEdits;
    EditsAscend(es, i, us, i + |PrintEntries(es)|);
    if es != [] {
      LabelIsLong(es[0].tag);
    } else {
      NothingEdited(i, us);
    }
  }

  lemma NothingEdited(i: nat, us: seq<Update>)
    ensures EntryEdits([], i, us) == []
  {
  }

  lemma AscendingInsertion(o: ObjectSpan, es: seq<Entry>, us: seq<Update>)
    requires Ascending(EntryEdits(es, o.open + 1, us), o.open + 1, o.open + 1 + |PrintEntries(es)|)
    ensures Ascending(AscendingEdits(o, es, us), o.open + 1, o.open + 1 + |PrintEntries(es)|)
  {
    hide InsertionText, PrintEntries, Absent, EntryEdits;
    var inner := EntryEdits(es, o.open + 1, us);
    if Absent(es, us) == [] {
      assert [] + inner == inner;
    } else {
      var e := Edit(o.open + 1, o.open + 1, InsertionText(o, Absent(es, us)));
      assert ([e] + inner)[1..] == inner;
    }
  }

  // ---------------------------------------------------------------------------
  // The text that the edits make
  // ---------------------------------------------------------------------------

  lemma SliceJoin(s: Text, a: nat, b: nat, c: nat)
    requires a <= b <= c <= |s|
    ensures s[a..c] == s[a..b] + s[b..c]
  {
  }

  /** Replacing the value of an entry splices the new value between its key and what follows. */
  lemma SplicesEntry(raw: Text, i: nat, e: Entry, value: Text, rest: seq<Edit>)
    requires At(raw, i, PrintEntry(e)) && Ascending(rest, i + |PrintEntry(e)|, |raw|)
    ensures var p := SpanOf(e, i);
            Splice(raw, i, [Edit(p.start, p.end, Quote(value))] + rest) ==
            PrintEntry(SetValue(e, value)) + Splice(raw, i + |PrintEntry(e)|, rest)
  {
    hide At, Quote, Print, PrintLabel, PrintEntry, Splice, KeyOf;
    EntrySplit(raw, i, e);
    var l, n := PrintLabel(e.tag), i + |PrintEntry(e)|;
    var start := i + |e.pre| + |l|;
    var end := start + |Print(e.value)|;
    AtBound(raw, i, PrintEntry(e));
    SliceIs(raw, i, e.pre);
    SliceIs(raw, i + |e.pre|, l);
    SliceIs(raw, end, e.post);
    SliceJoin(raw, i, i + |e.pre|, start);
    SpliceFrom(raw, end, n, rest);
    SpliceStep(raw, i, Edit(start, end, Quote(value)), rest);
    PrintsSet(e, value);
    Concats(e.pre, l, Quote(value), e.post, Splice(raw, n, rest));
  }

  lemma SpliceStep(raw: Text, from: nat, e: Edit, rest: seq<Edit>)
    requires from <= e.start <= |raw|
    ensures Splice(raw, from, [e] + rest) == raw[from..e.start] + e.text + Splice(raw, e.end, rest)
  {
    assert ([e] + rest)[1..] == rest;
  }

  lemma PrintsSet(e: Entry, value: Text)
    ensures PrintEntry(SetValue(e, value)) == e.pre + PrintLabel(e.tag) + Quote(value) + e.post
  {
    hide PrintLabel, QuoteBody;
  }

  lemma Concats(a: Text, b: Text, c: Text, d: Text, e: Text)
    ensures a + b + c + (d + e) == a + b + c + d + e
  {
  }

  lemma {:induction false} SplicesEntries(raw: Text, i: nat, es: seq<Entry>, us: seq<Update>)
    requires At(raw, i, PrintEntries(es))
    ensures i + |PrintEntries(es)| <= |raw|
    ensures Ascending(EntryEdits(es, i, us), i, |raw|)
    ensures Splice(raw, i, EntryEdits(es, i, us)) ==
            PrintEntries(SetEntries(es, us)) + raw[i + |PrintEntries(es)|..]
    decreases |es|
  {
    hide At, Quote, Print, PrintLabel, PrintEntry, Splice, KeyOf, SpanOf, ValueFor, Without;
    AtBound(raw, i, PrintEntries(es));
    EditsAscend(es, i, us, |raw|);
    if es == [] {
      SpliceEnd(raw, i);
    } else {
      FirstOfEntries(raw, i, es);
      var rest := if ValueFor(us, KeyOf(es[0].tag)).Some? then Without(us, KeyOf(es[0].tag)) else us;
      if |es| > 1 {
        var n := i + |PrintEntry(es[0])|;
        SplicesEntries(raw, n + 1, es[1..], rest);
        SplicesMore(raw, i, es, us, rest);
      } else {
        SplicesLast(raw, i, es[0], us);
        assert es == [es[0]];
      }
    }
  }

  lemma SplicesMore(raw: Text, i: nat, es: seq<Entry>, us: seq<Update>, rest: seq<Update>)
    requires |es| > 1 && At(raw, i, PrintEntries(es)) && i + |PrintEntries(es)| <= |raw|
    requires var v, key := ValueFor(us, KeyOf(es[0].tag)), KeyOf(es[0].tag);
             rest == if v.Some? then Without(us, key) else us
    requires var n := i + |PrintEntry(es[0])|;
             && Ascending(EntryEdits(es[1..], n + 1, rest), n + 1, |raw|)
             && Splice(raw, n + 1, EntryEdits(es[1..], n + 1, rest)) ==
                PrintEntries(SetEntries(es[1..], rest)) + raw[i + |PrintEntries(es)|..]
    ensures Splice(raw, i, EntryEdits(es, i, us)) ==
            PrintEntries(SetEntries(es, us)) + raw[i + |PrintEntries(es)|..]
  {
    hide At, Quote, Print, PrintLabel, PrintEntry, PrintEntries, Splice, KeyOf, SpanOf, ValueFor, Without, SetValue;
    FirstOfEntries(raw, i, es);
    var e, n := es[0], i + |PrintEntry(es[0])|;
    var v := ValueFor(us, KeyOf(e.tag));
    var e' := if v.Some? then SetValue(e, v.value) else e;
    var edits := EntryEdits(es[1..], n + 1, rest);
    SplicesComma(raw, n, edits);
    SplicesFirst(raw, i, e, us, edits);
    var tail := SetEntries(es[1..], rest);
    PrintsFirst(e', tail);
    assert SetEntries(es, us) == [e'] + tail;
    ConcatsFour(PrintEntry(e'), [COMMA], PrintEntries(tail), raw[i + |PrintEntries(es)|..]);
  }

  lemma ConcatsFour(a: Text, b: Text, c: Text, d: Text)
    ensures a + (b + (c + d)) == a + (b + c) + d
  {
  }

  lemma SplicesLast(raw: Text, i: nat, e: Entry, us: seq<Update>)
    requires At(raw, i, PrintEntries([e]))
    ensures i + |PrintEntries([e])| <= |raw|
    ensures Splice(raw, i, EntryEdits([e], i, us)) ==
            PrintEntries(SetEntries([e], us)) + raw[i + |PrintEntries([e])|..]
  {
    hide At, Quote, Print, PrintLabel, PrintEntry, PrintEntries, Splice, KeyOf, SpanOf, ValueFor, Without, SetValue;
    PrintsSingle(e);
    AtBound(raw, i, PrintEntry(e));
    var n := i + |PrintEntry(e)|;
    SpliceEnd(raw, n);
    AscendingEnd(n, |raw|);
    SplicesFirst(raw, i, e, us, []);
    assert [e][1..] == [];
    match ValueFor(us, KeyOf(e.tag)) {
      case Some(v) =>
        PrintsSingle(SetValue(e, v));
        assert SetEntries([e], us) == [SetValue(e, v)];
        assert EntryEdits([e], i, us) == [Edit(SpanOf(e, i).start, SpanOf(e, i).end, Quote(v))] + [];
      case None =>
        assert SetEntries([e], us) == [e];
        assert EntryEdits([e], i, us) == [];
    }
  }

  lemma AscendingEnd(n: nat, size: nat)
    requires n <= size
    ensures Ascending([], n, size)
  {
  }

  lemma SpliceEnd(raw: Text, i: nat)
    requires i <= |raw|
    ensures Splice(raw, i, []) == raw[i..]
  {
  }

  lemma SplicesComma(raw: Text, n: nat, edits: seq<Edit>)
    requires n < |raw| && raw[n] == COMMA && Ascending(edits, n + 1, |raw|)
    ensures Ascending(edits, n, |raw|) && Splice(raw, n, edits) == [COMMA] + Splice(raw, n + 1, edits)
  {
    hide Splice;
    SpliceFrom(raw, n, n + 1, edits);
    assert raw[n..n + 1] == [COMMA];
  }

  /** The first entry with its replacement, if any, in front of further edits. */
  lemma SplicesFirst(raw: Text, i: nat, e: Entry, us: seq<Update>, edits: seq<Edit>)
    requires At(raw, i, PrintEntry(e)) && Ascending(edits, i + |PrintEntry(e)|, |raw|)
    ensures var v := ValueFor(us, KeyOf(e.tag));
            && (v.Some? ==>
                  Splice(raw, i, [Edit(SpanOf(e, i).start, SpanOf(e, i).end, Quote(v.value))] + edits) ==
                  PrintEntry(SetValue(e, v.value)) + Splice(raw, i + |PrintEntry(e)|, edits))
            && (v.None? ==> Splice(raw, i, edits) == PrintEntry(e) + Splice(raw, i + |PrintEntry(e)|, edits))
  {
    hide At, Quote, PrintEntry, Splice, KeyOf, SpanOf, ValueFor;
    match ValueFor(us, KeyOf(e.tag)) {
      case Some(v) => SplicesEntry(raw, i, e, v, edits);
      case None =>
        AtBound(raw, i, PrintEntry(e));
        SpliceFrom(raw, i, i + |PrintEntry(e)|, edits);
        SliceIs(raw, i, PrintEntry(e));
    }
  }

  lemma PrintsFirst(e: Entry, rest: seq<Entry>)
    requires rest != []
    ensures PrintEntries([e] + rest) == PrintEntry(e) + ([COMMA] + PrintEntries(rest))
  {
    hide PrintEntry;
    assert ([e] + rest)[1..] == rest;
  }

  lemma PrintsSingle(e: Entry)
    ensures PrintEntries([e]) == PrintEntry(e)
  {
    hide PrintEntry;
    assert PrintEntries([e]) == PrintEntry(e) + [];
  }

  // ---------------------------------------------------------------------------
  // The updated object
  // ---------------------------------------------------------------------------

  lemma {:induction false} PrintsNewEntries(us: seq<Update>, last: Text)
    requires us != []
    ensures NewEntries(us, last) != [] && PrintEntries(NewEntries(us, last)) == [SPACE] + MembersText(us) + last
  {
    hide PrintEntry, MemberText, PrintEntries;
    if |us| == 1 {
      PrintsNewEntry(us[0], last);
      PrintsSingle(NewEntry(us[0], last));
    } else {
      PrintsNewEntries(us[1..], last);
      PrintsNewEntry(us[0], []);
      PrintsFirst(NewEntry(us[0], []), NewEntries(us[1..], last));
      var m, r := MemberText(us[0]), MembersText(us[1..]);
      assert [SPACE] + m + [] + ([COMMA] + ([SPACE] + r + last)) == [SPACE] + (m + [COMMA, SPACE] + r) + last;
    }
  }

  lemma PrintsNewEntry(u: Update, post: Text)
    ensures PrintEntry(NewEntry(u, post)) == [SPACE] + MemberText(u) + post
  {
    hide QuoteBody;
    var k, v := QuoteBody(u.key), QuoteBody(u.value);
    var q := [QUOTE];
    assert PrintLabel(Label(k, [], [SPACE])) == q + k + q + [COLON, SPACE] by {
      assert q + k + q + [] == q + k + q;
      assert q + k + q + [COLON] + [SPACE] == q + k + q + [COLON, SPACE];
    }
    assert MemberText(u) == q + k + q + [COLON, SPACE] + (q + v + q);
    var l := q + k + q + [COLON, SPACE];
    assert [SPACE] + l + (q + v + q) + post == [SPACE] + (l + (q + v + q)) + post;
  }

  lemma {:induction false} PrintsBoth(a: seq<Entry>, b: seq<Entry>)
    requires a != [] && b != []
    ensures PrintEntries(a + b) == PrintEntries(a) + [COMMA] + PrintEntries(b)
    decreases |a|
  {
    hide PrintEntry, PrintEntries;
    var t := a[1..] + b;
    assert a + b == [a[0]] + t;
    PrintsFirst(a[0], t);
    if |a| == 1 {
      assert t == b && a == [a[0]];
      PrintsSingle(a[0]);
    } else {
      PrintsBoth(a[1..], b);
      PrintsFirst(a[0], a[1..]);
      assert a == [a[0]] + a[1..];
      var e, x, y := PrintEntry(a[0]), PrintEntries(a[1..]), PrintEntries(b);
      assert e + ([COMMA] + (x + [COMMA] + y)) == e + ([COMMA] + x) + [COMMA] + y;
    }
  }

  /** What stands between the braces of the updated object, in terms of the old text. */
  lemma PrintsSetObject(es: seq<Entry>, tail: Tail, us: seq<Update>, props: seq<PropSpan>, open: nat, close: nat)
    requires (props == [] <==> es == []) && (es == [] ==> tail.NoComma?)
    ensures var missing := Absent(es, us);
            Print(SetObject(es, tail, us)) ==
            [LBRACE]
            + (if missing == [] then [] else InsertionText(ObjectSpan(props, open, close), missing))
            + PrintEntries(SetEntries(es, us)) + PrintTail(tail) + [RBRACE]
  {
    hide PrintEntries, MembersText, NewEntries, SetEntries, Absent;
    var missing, r := Absent(es, us), SetEntries(es, us);
    var m := MembersText(missing);
    if missing == [] {
      assert [LBRACE] + [] + PrintEntries(r) == [LBRACE] + PrintEntries(r);
    } else if es == [] {
      PrintsNewEntries(missing, [SPACE] + tail.ws);
      PrintsNothing(us);
      assert [LBRACE] + ([SPACE] + m + ([SPACE] + tail.ws)) + [] + [RBRACE] ==
             [LBRACE] + ([SPACE] + m + [SPACE]) + [] + tail.ws + [RBRACE];
    } else {
      PrintsNewEntries(missing, []);
      PrintsBoth(NewEntries(missing, []), r);
      assert [LBRACE] + ([SPACE] + m + [] + [COMMA] + PrintEntries(r)) ==
             [LBRACE] + ([SPACE] + m + [COMMA]) + PrintEntries(r);
    }
  }

  lemma PrintsNothing(us: seq<Update>)
    ensures SetEntries([], us) == [] && PrintEntries([]) == []
  {
  }

  /** The edited text around the object is kept and the object is printed anew. */
  lemma SplicesObject(raw: Text, i: nat, es: seq<Entry>, tail: Tail, us: seq<Update>, o: ObjectSpan)
    requires At(raw, i, Print(Group(true, es, tail))) && HasLabels(es) && DistinctKeys(us)
    requires (es == [] ==> tail.NoComma?) && o.props == Spans(es, i + 1) && o.open == i
    ensures var n := i + |Print(Group(true, es, tail))|;
            && n <= |raw| && Ascending(AscendingEdits(o, es, us), i + 1, n - 1)
            && Splice(raw, 0, AscendingEdits(o, es, us)) == raw[..i] + Print(SetObject(es, tail, us)) + raw[n..]
  {
    hide At, PrintEntries, PrintTail, Splice, EntryEdits, InsertionText, Absent, SetObject, Print, Spans, SetEntries,
         Ascending, DistinctKeys, HasLabels;
    GroupParts(raw, i, true, es, tail);
    AtBound(raw, i, Print(Group(true, es, tail)));
    var n, p := i + |Print(Group(true, es, tail))|, i + 1 + |PrintEntries(es)|;
    SortsEdits(o, es, us);
    SplicesEntries(raw, i + 1, es, us);
    AtElement(raw, i, [LBRACE], 0);
    SplicesInsertion(raw, i, es, us, o);
    TailOfObject(raw, p, PrintTail(tail));
    PrintsSetObject(es, tail, us, o.props, o.open, o.close);
    AscendingWider(AscendingEdits(o, es, us), i + 1, p, n - 1);
    var ins := if Absent(es, us) == [] then [] else InsertionText(o, Absent(es, us));
    ConcatsSeven(raw[..i], [LBRACE], ins, PrintEntries(SetEntries(es, us)), PrintTail(tail), [RBRACE], raw[n..]);
  }

  lemma TailOfObject(raw: Text, p: nat, t: Text)
    requires At(raw, p, t) && At(raw, p + |t|, [RBRACE])
    ensures p + |t| + 1 <= |raw| && raw[p..] == t + ([RBRACE] + raw[p + |t| + 1..])
  {
    hide At;
    SliceIs(raw, p, t);
    SliceIs(raw, p + |t|, [RBRACE]);
    SliceJoin(raw, p, p + |t|, |raw|);
    SliceJoin(raw, p + |t|, p + |t| + 1, |raw|);
  }

  lemma ConcatsSeven(a: Text, b: Text, c: Text, d: Text, e: Text, f: Text, g: Text)
    ensures a + b + c + (d + (e + (f + g))) == a + (b + c + d + e + f) + g
  {
  }

  lemma AscendingWider(es: seq<Edit>, from: nat, size: nat, wider: nat)
    requires Ascending(es, from, size) && size <= wider
    ensures Ascending(es, from, wider)
    decreases |es|
  {
  }

  lemma SplicesInsertion(raw: Text, i: nat, es: seq<Entry>, us: seq<Update>, o: ObjectSpan)
    requires o.open == i && i < |raw| && raw[i] == LBRACE && Ascending(EntryEdits(es, i + 1, us), i + 1, |raw|)
    ensures Splice(raw, 0, AscendingEdits(o, es, us)) ==
            raw[..i] + [LBRACE] + (if Absent(es, us) == [] then [] else InsertionText(o, Absent(es, us)))
            + Splice(raw, i + 1, EntryEdits(es, i + 1, us))
  {
    hide Splice, EntryEdits, InsertionText, Absent;
    var inner := EntryEdits(es, i + 1, us);
    assert raw[0..i + 1] == raw[..i] + [LBRACE];
    if Absent(es, us) == [] {
      assert [] + inner == inner;
      SpliceFrom(raw, 0, i + 1, inner);
      assert raw[..i] + [LBRACE] + [] == raw[..i] + [LBRACE];
    } else {
      SpliceStep(raw, 0, Edit(i + 1, i + 1, InsertionText(o, Absent(es, us))), inner);
    }
  }
}
