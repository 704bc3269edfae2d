// Edits of a text: sorted by descending offset, applied one after the other.

module TextEdits {
  import opened Texts

  /** Replaces the characters in `start..end` by `text`. */
  datatype Edit = Edit(start: nat, end: nat, text: Text)

  // ---------------------------------------------------------------------------
  // Sorting
  // ---------------------------------------------------------------------------

  /** Stable insertion by descending start. */
  function Insert(e: Edit, es: seq<Edit>): seq<Edit> {
    if es == [] || es[0].start <= e.start then [e] + es else [es[0]] + Insert(e, es[1..])
  }

  /** `edits.sort((a, b) => b.start - a.start)`: stable, by descending start. */
  function SortDescending(es: seq<Edit>): seq<Edit> {
    if es == [] then [] else Insert(es[0], SortDescending(es[1..]))
  }

  ghost predicate Descending(es: seq<Edit>) {
    forall a, b :: 0 <= a < b < |es| ==> es[a].start > es[b].start
  }

  ghost predicate DistinctStarts(es: seq<Edit>) {
    forall a, b :: 0 <= a < b < |es| ==> es[a].start != es[b].start
  }

  lemma {:induction false} InsertDescends(e: Edit, es: seq<Edit>)
    requires Descending(es) && forall k :: 0 <= k < |es| ==> es[k].start != e.start
    ensures Descending(Insert(e, es)) && forall x :: x in Insert(e, es) <==> x == e || x in es
  {
    if es != [] && es[0].start > e.start {
      InsertDescends(e, es[1..]);
      var r := Insert(e, es[1..]);
      forall b | 0 <= b < |r| ensures es[0].start > r[b].start {
        assert r[b] in r;
      }
      assert es == [es[0]] + es[1..];
    }
  }

  lemma {:induction false} SortDescends(es: seq<Edit>)
    requires DistinctStarts(es)
    ensures Descending(SortDescending(es)) && forall x :: x in SortDescending(es) <==> x in es
  {
    if es != [] {
      var rest := es[1..];
      SortDescends(rest);
      var r := SortDescending(rest);
      forall k | 0 <= k < |r| ensures r[k].start != es[0].start {
        assert r[k] in rest;
        var j :| 0 <= j < |rest| && rest[j] == r[k];
        assert es[j + 1] == rest[j];
      }
      InsertDescends(es[0], r);
      assert es == [es[0]] + rest;
    }
  }

  /** Two strictly descending lists of the same edits are the same list. */
  lemma {:induction false} DescendingUnique(a: seq<Edit>, b: seq<Edit>)
    requires Descending(a) && Descending(b) && forall x :: x in a <==> x in b
    ensures a == b
    decreases |a|
  {
    if a == [] {
      HasFirst(b);
    } else {
      HasFirst(a);
      HasFirst(b);
      var i :| 0 <= i < |b| && b[i] == a[0];
      var j :| 0 <= j < |a| && a[j] == b[0];
      assert i == 0 && j == 0;
      forall x ensures x in a[1..] <==> x in b[1..] {
        SameTails(a, b, x);
        SameTails(b, a, x);
      }
      DescendingUnique(a[1..], b[1..]);
      assert a == [a[0]] + a[1..] && b == [b[0]] + b[1..];
    }
  }

  lemma HasFirst(es: seq<Edit>)
    ensures es == [] || es[0] in es
  {
  }

  lemma SameTails(a: seq<Edit>, b: seq<Edit>, x: Edit)
    requires Descending(a) && a != [] && b != [] && a[0] == b[0] && forall y :: y in a ==> y in b
    ensures x in a[1..] ==> x in b[1..]
  {
    if x in a[1..] {
      var k :| 0 <= k < |a| - 1 && a[1..][k] == x;
      assert a[k + 1] == x && x.start < a[0].start;
      assert x in b;
      var j :| 0 <= j < |b| && b[j] == x;
      assert j > 0 && b[1..][j - 1] == x;
    }
  }

  // ---------------------------------------------------------------------------
  // Splicing
  // ---------------------------------------------------------------------------

  /** `out.slice(0, e.start) + e.text + out.slice(e.end)` for each edit in turn. */
  function ApplyEdits(out: Text, es: seq<Edit>): Text
    decreases |es|
  {
    if es == [] then out
    else ApplyEdits(ApplyEdit(out, es[0]), es[1..])
  }

  function ApplyEdit(out: Text, e: Edit): Text {
    (if e.start <= |out| then out[..e.start] else out) + e.text + (if e.end <= |out| then out[e.end..] else [])
  }

  /** Edits in ascending order inside `from..size`, none overlapping the next. */
  ghost predicate Ascending(es: seq<Edit>, from: nat, size: nat)
    decreases |es|
  {
    if es == [] then from <= size
    else from <= es[0].start <= es[0].end && Ascending(es[1..], es[0].end, size)
  }

  /** The text from `from` on with ascending edits made: the gaps of `raw` and the new texts in turn. */
  function Splice(raw: Text, from: nat, es: seq<Edit>): Text
    decreases |es|
  {
    if es == [] then (if from <= |raw| then raw[from..] else [])
    else (if from <= es[0].start <= |raw| then raw[from..es[0].start] else [])
         + es[0].text + Splice(raw, es[0].end, es[1..])
  }

  function Reverse(es: seq<Edit>): (r: seq<Edit>)
    ensures |r| == |es|
    ensures forall k :: 0 <= k < |es| ==> r[k] == es[|es| - 1 - k]
  {
    if es == [] then [] else Reverse(es[1..]) + [es[0]]
  }

  lemma {:induction false} AscendingBound(es: seq<Edit>, from: nat, size: nat)
    requires Ascending(es, from, size)
    ensures from <= size
    ensures forall k :: 0 <= k < |es| ==> from <= es[k].start <= es[k].end <= size
    decreases |es|
  {
    if es != [] {
      AscendingBound(es[1..], es[0].end, size);
      assert es == [es[0]] + es[1..];
    }
  }

  lemma {:induction false} ApplyLast(out: Text, es: seq<Edit>, e: Edit)
    ensures ApplyEdits(out, es + [e]) == ApplyEdit(ApplyEdits(out, es), e)
    decreases |es|
  {
    if es == [] {
      assert es + [e] == [e];
      assert [e][1..] == [];
      assert ApplyEdits(ApplyEdit(out, e), []) == ApplyEdit(out, e);
    } else {
      assert (es + [e])[0] == es[0] && (es + [e])[1..] == es[1..] + [e];
      ApplyLast(ApplyEdit(out, es[0]), es[1..], e);
    }
  }

  /** A splice starts with the untouched text in front of its first edit. */
  lemma SpliceFrom(raw: Text, from: nat, to: nat, es: seq<Edit>)
    requires from <= to <= |raw| && Ascending(es, to, |raw|)
    ensures Ascending(es, from, |raw|) && Splice(raw, from, es) == raw[from..to] + Splice(raw, to, es)
  {
    AscendingBound(es, to, |raw|);
    if es == [] {
      assert raw[from..] == raw[from..to] + raw[to..];
    } else {
      assert raw[from..es[0].start] == raw[from..to] + raw[to..es[0].start];
      var rest := es[0].text + Splice(raw, es[0].end, es[1..]);
      assert Splice(raw, to, es) == raw[to..es[0].start] + rest;
      assert Splice(raw, from, es) == raw[from..es[0].start] + rest;
      assert raw[from..to] + raw[to..es[0].start] + rest == raw[from..to] + (raw[to..es[0].start] + rest);
    }
  }

  /** Applying disjoint edits from the last to the first keeps everything between them. */
  lemma {:induction false} ApplySplices(raw: Text, es: seq<Edit>)
    requires Ascending(es, 0, |raw|)
    ensures ApplyEdits(raw, Reverse(es)) == Splice(raw, 0, es)
    decreases |es|
  {
    if es != [] {
      var e, rest := es[0], es[1..];
      AscendingBound(es, 0, |raw|);
      SpliceFrom(raw, 0, e.end, rest);
      SpliceFrom(raw, 0, 0, rest);
      ApplySplices(raw, rest);
      ApplyLast(raw, Reverse(rest), e);
      var inner := Splice(raw, 0, rest);
      var tail := Splice(raw, e.end, rest);
      assert inner == raw[0..e.end] + tail;
      assert inner[..e.start] == raw[0..e.start];
      assert inner[e.end..] == tail;
    } else {
      assert raw[0..] == raw;
    }
  }

  lemma {:induction false} ReverseDescends(es: seq<Edit>)
    requires forall a, b :: 0 <= a < b < |es| ==> es[a].start < es[b].start
    ensures Descending(Reverse(es)) && forall x :: x in Reverse(es) <==> x in es
  {
    var r := Reverse(es);
    forall x ensures x in r <==> x in es {
      if x in r {
        var k :| 0 <= k < |r| && r[k] == x;
        assert es[|es| - 1 - k] == x;
      }
      if x in es {
        var k :| 0 <= k < |es| && es[k] == x;
        assert r[|es| - 1 - k] == x;
      }
    }
  }

  // ---------------------------------------------------------------------------
  // What edits keep
  // ---------------------------------------------------------------------------

  /** How far the text behind the edits in front of `k` has moved. */
  function Shift(es: seq<Edit>, k: nat): int
    decreases |es|
  {
    if es == [] || k < es[0].end then 0
    else |es[0].text| - (es[0].end - es[0].start) + Shift(es[1..], k)
  }

  predicate Outside(es: seq<Edit>, k: nat) {
    forall j :: 0 <= j < |es| ==> k < es[j].start || es[j].end <= k
  }

  /** A character in front of the first edit stays where it is. */
  lemma KeepsFront(raw: Text, from: nat, es: seq<Edit>, k: nat)
    requires Ascending(es, from, |raw|) && from <= k < |raw| && (es != [] ==> k < es[0].start)
    ensures Shift(es, k) == 0 && k - from < |Splice(raw, from, es)| && Splice(raw, from, es)[k - from] == raw[k]
  {
    AscendingBound(es, from, |raw|);
  }

  /** Behind the first edit stands the splice of the others. */
  lemma KeepsBehind(raw: Text, from: nat, es: seq<Edit>, k: nat, l: nat)
    requires es != [] && Ascending(es, from, |raw|) && es[0].end <= k
    requires l < |Splice(raw, es[0].end, es[1..])| && l == k - es[0].end + Shift(es[1..], k)
    ensures k - from + Shift(es, k) == es[0].start - from + |es[0].text| + l
    ensures 0 <= k - from + Shift(es, k) < |Splice(raw, from, es)|
    ensures Splice(raw, from, es)[k - from + Shift(es, k)] == Splice(raw, es[0].end, es[1..])[l]
  {
    AscendingBound(es, from, |raw|);
    var head, rest := raw[from..es[0].start] + es[0].text, Splice(raw, es[0].end, es[1..]);
    assert Splice(raw, from, es) == head + rest;
    assert (head + rest)[|head| + l] == rest[l];
  }

  /** Every character outside the edited spans is kept, moved by the edits in front of it. */
  lemma {:induction false} SpliceKeeps(raw: Text, from: nat, es: seq<Edit>, k: nat)
    requires Ascending(es, from, |raw|) && from <= k < |raw| && Outside(es, k)
    ensures 0 <= k - from + Shift(es, k) < |Splice(raw, from, es)|
    ensures Splice(raw, from, es)[k - from + Shift(es, k)] == raw[k]
    decreases |es|
  {
    hide Splice, Shift;
    if es == [] || k < es[0].start {
      KeepsFront(raw, from, es, k);
    } else {
      OutsideRest(es, k);
      SpliceKeeps(raw, es[0].end, es[1..], k);
      KeepsBehind(raw, from, es, k, k - es[0].end + Shift(es[1..], k));
    }
  }

  lemma OutsideRest(es: seq<Edit>, k: nat)
    requires es != [] && Outside(es, k)
    ensures Outside(es[1..], k)
  {
    assert forall j :: 0 <= j < |es[1..]| ==> es[1..][j] == es[j + 1];
  }
}
