// Updating a string map that the configuration does not have yet: the new property is put in
// front of the root object's closing brace, which works unless a trailing comma stands there.

module ConfigInsertion {
  import opened Results
  import opened Texts
  import opened JsonText
  import opened JsonRoundTrip
  import opened JsoncBlanking
  import opened JsoncDocument
  import opened ConfigScan
  import opened TextEdits
  import opened ConfigUpdate
  import opened ConfigRoundTrip
  import opened ConfigTheorems
  import opened ConfigResults

  const BREAK: Text := [NEWLINE, SPACE, SPACE]

  function NewObject(us: seq<Update>): Syntax {
    if us == [] then Group(true, [], NoComma([SPACE, SPACE])) else Group(true, NewEntries(us, [SPACE]), NoComma([]))
  }

  function NewProperty(pre: Text, key: Text, us: seq<Update>): Entry {
    Entry(pre, Label(QuoteBody(key), [], [SPACE]), NewObject(us), [NEWLINE])
  }

  /** The root object with the new property at its end. */
  function Extended(root: Syntax, key: Text, us: seq<Update>): Syntax
    requires root.Group?
  {
    if root.entries == [] then Group(true, [NewProperty(root.tail.ws + BREAK, key, us)], NoComma([]))
    else Group(true, root.entries + [NewProperty(BREAK, key, us)], NoComma([]))
  }

  /** The new property as it is written, without the comma in front of it. */
  function PropertyText(key: Text, us: seq<Update>): Text {
    BREAK + Quote(key) + [COLON, SPACE, LBRACE, SPACE] + MembersText(us) + [SPACE, RBRACE, NEWLINE]
  }

  /** The text with the new property written in front of the closing brace. */
  function InsertedText(d: Document, key: Text, us: seq<Update>): Text
    requires d.root.Group?
  {
    d.lead + ([LBRACE] + PrintEntries(d.root.entries) + PrintTail(d.root.tail))
    + ((if d.root.entries != [] then [COMMA] else []) + PropertyText(key, us)) + ([RBRACE] + d.trail)
  }

  lemma InsertsText(d: Document, key: Text, us: seq<Update>)
    requires ValidDocument(d) && d.root.Group? && d.root.obj && !HasKey(d.root.entries, key)
    ensures UpdateStringMap(PrintDocument(d), key, us) == Ok(InsertedText(d, key, us))
  {
    hide Print, At, WellFormed, StripText, Lexes, IsGap, GapFrom, ObjectAt, PrintDocument, FindProp, Blanked,
         ValidDocument, HasKey, Seen, Spans, PrintEntries, PrintTail, Quote, MembersText;
    var raw := PrintDocument(d);
    var t := StripText(raw, 0);
    var es, tail, i := d.root.entries, d.root.tail, |d.lead|;
    SeesRoot(d);
    FindsRoot(d);
    FindsNoKey(raw, t, i, es, tail, key);
    var root := ObjectAt(t, 0).value;
    var c := i + |Print(d.root)| - 1;
    var text := NewPropertyText(root, key, us);
    OneEdit(raw, Edit(c, c, text));
    PrintsGroup(es, tail);
    SlicesRoot(d, c);
    var comma := if es != [] then [COMMA] else [];
    assert text == comma + PropertyText(key, us) by {
      SpansEmpty(es, i + 1);
      ConcatsText(comma, Quote(key), MembersText(us));
    }
  }

  lemma ConcatsText(a: Text, b: Text, c: Text)
    ensures a + [NEWLINE, SPACE, SPACE] + b + [COLON, SPACE, LBRACE, SPACE] + c + [SPACE, RBRACE, NEWLINE] ==
            a + (BREAK + b + [COLON, SPACE, LBRACE, SPACE] + c + [SPACE, RBRACE, NEWLINE])
  {
  }

  lemma SpansEmpty(es: seq<Entry>, i: nat)
    ensures Spans(es, i) == [] <==> es == []
  {
  }

  lemma OneEdit(raw: Text, e: Edit)
    requires e.start == e.end <= |raw|
    ensures ApplyEdits(raw, SortDescending([e])) == raw[..e.start] + e.text + raw[e.start..]
  {
    assert SortDescending([e]) == [e];
    assert ApplyEdits(raw, [e]) == ApplyEdits(ApplyEdit(raw, e), []);
  }

  lemma SlicesRoot(d: Document, c: nat)
    requires d.root.Group? && d.root.obj && c == |d.lead| + |Print(d.root)| - 1
    ensures var raw := PrintDocument(d);
            && c <= |raw|
            && raw[..c] == d.lead + ([LBRACE] + PrintEntries(d.root.entries) + PrintTail(d.root.tail))
            && raw[c..] == [RBRACE] + d.trail
  {
    hide PrintEntries, PrintTail;
    var a := [LBRACE] + PrintEntries(d.root.entries) + PrintTail(d.root.tail);
    assert Print(d.root) == a + [RBRACE];
    assert PrintDocument(d) == d.lead + a + ([RBRACE] + d.trail);
  }

  // ---------------------------------------------------------------------------
  // No trailing comma: the property is appended
  // ---------------------------------------------------------------------------

  lemma PrintsNewObject(us: seq<Update>)
    ensures Print(NewObject(us)) == [LBRACE, SPACE] + MembersText(us) + [SPACE, RBRACE]
  {
    hide MembersText, NewEntries, PrintEntries;
    if us == [] {
      NoEntries(0, NoComma([]));
      NoMembers();
      assert [LBRACE] + [] + [SPACE, SPACE] + [RBRACE] == [LBRACE, SPACE] + [] + [SPACE, RBRACE];
    } else {
      PrintsNewEntries(us, [SPACE]);
      var m := MembersText(us);
      assert [LBRACE] + ([SPACE] + m + [SPACE]) + [] + [RBRACE] == [LBRACE, SPACE] + m + [SPACE, RBRACE];
    }
  }

  lemma NoMembers()
    ensures MembersText([]) == []
  {
  }

  lemma PrintsNewProperty(pre: Text, key: Text, us: seq<Update>)
    ensures PrintEntry(NewProperty(pre + BREAK, key, us)) == pre + PropertyText(key, us)
  {
    hide MembersText, NewObject, QuoteBody, Print;
    PrintsNewObject(us);
    var q, m := Quote(key), MembersText(us);
    var k := QuoteBody(key);
    assert PrintLabel(Label(k, [], [SPACE])) == q + [COLON, SPACE] by {
      assert [QUOTE] + k + [QUOTE] + [] + [COLON] + [SPACE] == [QUOTE] + k + [QUOTE] + [COLON, SPACE];
    }
    assert pre + BREAK + (q + [COLON, SPACE]) + ([LBRACE, SPACE] + m + [SPACE, RBRACE]) + [NEWLINE] ==
           pre + (BREAK + q + [COLON, SPACE, LBRACE, SPACE] + m + [SPACE, RBRACE, NEWLINE]);
  }

  lemma PrintsExtended(d: Document, key: Text, us: seq<Update>)
    requires d.root.Group? && d.root.obj && d.root.tail.NoComma? && (d.root.entries != [] ==> d.root.tail.ws == [])
    ensures PrintDocument(d.(root := Extended(d.root, key, us))) == InsertedText(d, key, us)
  {
    hide PrintEntries, PrintEntry, PropertyText, NewProperty;
    var es, ws, p := d.root.entries, d.root.tail.ws, PropertyText(key, us);
    if es == [] {
      PrintsNewProperty(ws, key, us);
      PrintsSingle(NewProperty(ws + BREAK, key, us));
      NoEntries(0, d.root.tail);
      PrintsGroup([NewProperty(ws + BREAK, key, us)], NoComma([]));
      assert d.lead + ([LBRACE] + (ws + p) + [] + [RBRACE]) + d.trail ==
             d.lead + ([LBRACE] + [] + ws) + ([] + p) + ([RBRACE] + d.trail);
    } else {
      var e := NewProperty(BREAK, key, us);
      assert [] + BREAK == BREAK && [] + p == p;
      PrintsNewProperty([], key, us);
      PrintsSingle(e);
      PrintsBoth(es, [e]);
      PrintsGroup(es + [e], NoComma([]));
      var x := PrintEntries(es);
      assert d.lead + ([LBRACE] + (x + [COMMA] + p) + [] + [RBRACE]) + d.trail ==
             d.lead + ([LBRACE] + x + []) + ([COMMA] + p) + ([RBRACE] + d.trail);
    }
  }

  lemma NewObjectWellFormed(us: seq<Update>)
    ensures WellFormed(NewObject(us), IsGap, true)
  {
    hide GapFrom, NewEntries, WellFormedEntry;
    SpaceIsGap();
    SpacesAreGap([SPACE, SPACE], 0);
    NewEntriesWellFormed(us, [SPACE]);
  }

  lemma NewPropertyWellFormed(pre: Text, key: Text, us: seq<Update>)
    requires IsGap(pre)
    ensures WellFormedEntry(true, NewProperty(pre, key, us), IsGap, true)
  {
    hide GapFrom, NewObject, Decode, WellFormed;
    SpaceIsGap();
    SpacesAreGap([NEWLINE], 0);
    QuoteRoundTrip(key);
    NewObjectWellFormed(us);
  }

  lemma ExtendedWellFormed(root: Syntax, key: Text, us: seq<Update>)
    requires root.Group? && root.obj && WellFormed(root, IsGap, true)
    ensures WellFormed(Extended(root, key, us), IsGap, true)
  {
    hide IsGap, WellFormedEntry, NewProperty;
    SpaceIsGap();
    BreakIsGap();
    GapConcat(root.tail.ws, BREAK);
    NewPropertyWellFormed(BREAK, key, us);
    NewPropertyWellFormed(root.tail.ws + BREAK, key, us);
  }

  lemma BreakIsGap()
    ensures IsGap(BREAK)
  {
    SpacesAreGap(BREAK, 0);
  }

  lemma DenotesNewObject(us: seq<Update>, x: Text)
    requires DistinctKeys(us)
    ensures Member(Denote(NewObject(us)), x) == match ValueFor(us, x) case Some(v) => Some(JString(v)) case None => None
  {
    hide Denote, DenoteEntries, NewEntries, LastOf, Member, ValueFor;
    if us == [] {
      MemberIsLast([], NoComma([SPACE, SPACE]), x);
      DenotesNothing();
      ValueForNone(x);
      NoLast(x);
    } else {
      MemberIsLast(NewEntries(us, [SPACE]), NoComma([]), x);
      LastOfNew(us, [SPACE], x);
    }
  }

  lemma NoLast(key: Text)
    ensures LastOf([], key) == None
  {
  }

  lemma DenotesExtended(root: Syntax, key: Text, us: seq<Update>, name: Text)
    requires root.Group? && root.obj && !HasKey(root.entries, key)
    ensures Member(Denote(Extended(root, key, us)), name) ==
            if name == key then Some(Denote(NewObject(us))) else Member(Denote(root), name)
  {
    hide Denote, DenoteEntries, NewObject, LastOf, Member, HasKey;
    var es := root.entries;
    var pre := if es == [] then root.tail.ws + BREAK else BREAK;
    var e := NewProperty(pre, key, us);
    assert Extended(root, key, us).entries == es + [e];
    MemberIsLast(es, root.tail, name);
    MemberIsLast(es + [e], NoComma([]), name);
    DenotesConcat(es, [e]);
    LastOfConcat(DenoteEntries(es), DenoteEntries([e]), name);
    DenotesOne(e, key, us, name);
  }

  lemma DenotesOne(e: Entry, key: Text, us: seq<Update>, name: Text)
    requires exists pre :: e == NewProperty(pre, key, us)
    ensures LastOf(DenoteEntries([e]), name) == if name == key then Some(Denote(NewObject(us))) else None
  {
    hide Denote, NewObject, Decode;
    QuoteRoundTrip(key);
    DenotesFirst([e]);
    assert [e][1..] == [];
    DenotesNothing();
  }

  /**
   * Without a trailing comma at the root, parsing the updated text gives the old members and the
   * new object, which has exactly the requested entries.
   */
  lemma InsertionSets(d: Document, key: Text, us: seq<Update>, name: Text, x: Text)
    requires ValidDocument(d) && d.root.Group? && d.root.obj && !HasKey(d.root.entries, key)
    requires d.root.tail.NoComma? && DistinctKeys(us)
    ensures var raw := PrintDocument(d);
            var out := UpdateStringMap(raw, key, us);
            && out.Ok? && ParseConfig(out.value).Some?
            && (name != key ==> Setting(out.value, name) == Setting(raw, name))
            && Setting(out.value, key).Some?
            && Inner(Setting(out.value, key), x) ==
               match ValueFor(us, x) case Some(v) => Some(JString(v)) case None => None
  {
    hide Denote, Member, ParseConfig, PrintDocument, ValueFor, DistinctKeys, UpdateStringMap, Setting, WellFormedEntries,
         IsGap, IsEnding, Extended, NewObject, HasKey, InsertedText;
    var d' := d.(root := Extended(d.root, key, us));
    InsertsText(d, key, us);
    PrintsExtended(d, key, us);
    ExtendedWellFormed(d.root, key, us);
    ParsesConfig(d');
    SettingOf(d, name);
    SettingOf(d', name);
    SettingOf(d', key);
    DenotesExtended(d.root, key, us, name);
    DenotesExtended(d.root, key, us, key);
    DenotesNewObject(us, x);
  }

  // ---------------------------------------------------------------------------
  // A trailing comma: the text no longer parses
  // ---------------------------------------------------------------------------

  /** Entries followed by two commas are no entries. */
  lemma {:induction false} FailsEntries(s: Text, i: nat, es: seq<Entry>)
    requires es != [] && WellFormedEntries(true, es, AllJsonSpace, false)
    requires At(s, i, PrintEntries(es))
    requires var n := i + |PrintEntries(es)|;
             && n < |s| && s[n] == COMMA
             && SkipJsonSpace(s, n + 1) < |s| && s[SkipJsonSpace(s, n + 1)] == COMMA
    ensures ParseEntries(true, s, i).Fail?
    decreases |es|
  {
    hide At, PrintEntry, WellFormedEntry, ParseEntry, Denote, KeyOf, ParseEntries, SkipJsonSpace;
    var first := PrintEntry(es[0]);
    assert WellFormedEntry(true, es[0], AllJsonSpace, false);
    FirstOfEntries(s, i, es);
    if |es| == 1 {
      ParsesEntry(true, s, i, es[0]);
      FailsAtComma(s, i + |first| + 1);
      FailsRest(s, i);
    } else {
      ParsesEntry(true, s, i, es[0]);
      FailsEntries(s, i + |first| + 1, es[1..]);
      FailsRest(s, i);
    }
  }

  lemma FailsAtComma(s: Text, i: nat)
    requires SkipJsonSpace(s, i) < |s| && s[SkipJsonSpace(s, i)] == COMMA
    ensures ParseEntries(true, s, i).Fail?
  {
    hide SkipJsonSpace;
  }

  lemma FailsRest(s: Text, i: nat)
    requires ParseEntry(true, s, i).Done? && var c := ParseEntry(true, s, i).next;
             c < |s| && s[c] == COMMA && ParseEntries(true, s, c + 1).Fail?
    ensures ParseEntries(true, s, i).Fail?
  {
    hide ParseEntry;
  }

  lemma FailsDocument(s: Text, lead: Text, es: seq<Entry>, ws: Text)
    requires es != [] && WellFormedEntries(true, es, AllJsonSpace, false) && AllJsonSpace(lead) && AllJsonSpace(ws)
    requires At(s, 0, lead) && At(s, |lead|, [LBRACE]) && At(s, |lead| + 1, PrintEntries(es))
    requires var n := |lead| + 1 + |PrintEntries(es)|;
             At(s, n, [COMMA]) && At(s, n + 1, ws) && At(s, n + 1 + |ws|, [COMMA])
    ensures JsonParse(s) == None
  {
    hide At, PrintEntries, WellFormedEntry, ParseEntries, SkipJsonSpace, AllJsonSpace;
    var i := |lead|;
    var n := i + 1 + |PrintEntries(es)|;
    AtElement(s, i, [LBRACE], 0);
    AtElement(s, n, [COMMA], 0);
    AtElement(s, n + 1 + |ws|, [COMMA], 0);
    AtBound(s, n + 1 + |ws|, [COMMA]);
    SkipsTo(s, 0, lead);
    SkipsTo(s, n + 1, ws);
    assert WellFormedEntry(true, es[0], AllJsonSpace, false);
    EntriesDoNotClose(true, s, i + 1, es);
    FailsEntries(s, i + 1, es);
    assert ParseGroup(true, s, i + 1).Fail?;
    assert ParseValue(s, i).Fail?;
  }

  /** A comma that is followed by something other than a closing bracket is kept. */
  lemma KeepsCommaBefore(s: Text, out: Text, i: nat, ws: Text)
    requires At(s, i, [COMMA]) && At(s, i + 1, ws) && AllJsonSpace(ws) && CommaFollows(s, out, i)
    requires var n := i + 1 + |ws|; n < |s| && (s[n] == COMMA || s[n] == QUOTE)
    ensures CommaFollows(s, out, i + 1) && At(out, i, [COMMA])
  {
    hide CommaFollows, CommaText, SkipSpace, At;
    CommaFollowsBound(s, out, i);
    AtElement(s, i, [COMMA], 0);
    AtBound(s, i, [COMMA]);
    SkipSpaceTo(s, i + 1, ws);
    CommaStep(s, out, i);
    AtSingle(out, i, COMMA);
  }

  /** The parts of a text in which a second comma follows the root object's trailing comma. */
  ghost predicate DoubleComma(s: Text, lead: Text, es: seq<Entry>, ws: Text) {
    var n := |lead| + 1 + |PrintEntries(es)|;
    && At(s, 0, lead) && At(s, |lead|, [LBRACE]) && At(s, |lead| + 1, PrintEntries(es))
    && At(s, n, [COMMA]) && At(s, n + 1, ws) && At(s, n + 1 + |ws|, [COMMA]) && At(s, n + 2 + |ws|, BREAK)
    && n + 2 + |ws| + |BREAK| < |s| && s[n + 2 + |ws| + |BREAK|] == QUOTE
  }

  lemma StripsDouble(s: Text, t: Text, lead: Text, es: seq<Entry>, ws: Text)
    requires WellFormedEntries(true, es, IsGap, true) && IsGap(lead) && IsGap(ws)
    requires DoubleComma(s, lead, es, ws) && Follows(s, t, 0) && Lexes(s, 0)
    ensures DoubleComma(t, BlankOf(lead), BlankedEntries(es), BlankOf(ws))
    ensures AllJsonSpace(BlankOf(lead)) && AllJsonSpace(BlankOf(ws))
    ensures WellFormedEntries(true, BlankedEntries(es), AllJsonSpace, true)
  {
    hide At, PrintEntries, WellFormedEntry, AllJsonSpace, IsGap, Follows, Lexes, BlankOf;
    var i := |lead|;
    var n := i + 1 + |PrintEntries(es)|;
    StripsGap(s, t, 0, lead);
    StripsPlain(s, t, i, [LBRACE]);
    StripsEntries(s, t, i + 1, true, es);
    StripsPlain(s, t, n, [COMMA]);
    StripsGap(s, t, n + 1, ws);
    StripsPlain(s, t, n + 1 + |ws|, [COMMA]);
    StripsPlain(s, t, n + 2 + |ws|, BREAK);
    KeepsQuote(s, t, n + 2 + |ws| + |BREAK|);
  }

  lemma KeepsQuote(s: Text, t: Text, i: nat)
    requires i < |s| && s[i] == QUOTE && Follows(s, t, i)
    ensures |t| == |s| && t[i] == QUOTE
  {
    hide Follows, LiteralStop, LineEnd, BlockEnd;
    FollowsLength(s, t, i);
    FollowsStep(s, t, i);
  }

  lemma CommasDouble(s: Text, out: Text, lead: Text, es: seq<Entry>, ws: Text)
    requires WellFormedEntries(true, es, AllJsonSpace, true) && AllJsonSpace(lead) && AllJsonSpace(ws) && es != []
    requires DoubleComma(s, lead, es, ws) && CommaFollows(s, out, 0)
    ensures JsonParse(out) == None
  {
    hide At, PrintEntries, WellFormedEntries, AllJsonSpace, CommaFollows, LiteralsEnd, JsonParse, UncommaedEntries,
         BlankedEntries;
    var i := |lead|;
    var n := i + 1 + |PrintEntries(es)|;
    CommasGap(s, out, 0, lead);
    CommasPlain(s, out, i, [LBRACE]);
    CommasEntries(s, out, i + 1, true, es);
    AtElement(s, n + 1 + |ws|, [COMMA], 0);
    KeepsCommaBefore(s, out, n, ws);
    CommasGap(s, out, n + 1, ws);
    BreakIsSpace();
    KeepsCommaBefore(s, out, n + 1 + |ws|, BREAK);
    UncommaedCount(es);
    FailsDocument(out, lead, UncommaedEntries(es), ws);
  }

  lemma BreakIsSpace()
    ensures AllJsonSpace(BREAK)
  {
  }

  lemma UncommaedCount(es: seq<Entry>)
    ensures |UncommaedEntries(es)| == |es| == |BlankedEntries(es)|
  {
  }

  lemma HeadPieces(s: Text, lead: Text, x: Text, y: Text)
    requires At(s, 0, lead + ([LBRACE] + x + y))
    ensures At(s, 0, lead) && At(s, |lead|, [LBRACE]) && At(s, |lead| + 1, x) && At(s, |lead| + 1 + |x|, y)
  {
    hide *;
    AtSplit(s, 0, lead, [LBRACE] + x + y);
    AtSplit(s, |lead|, [LBRACE] + x, y);
    AtSplit(s, |lead|, [LBRACE], x);
  }

  lemma TailPieces(s: Text, i: nat, y: Text, rest: Text)
    requires At(s, i, [COMMA] + (y + ([QUOTE] + rest)))
    ensures At(s, i, [COMMA]) && At(s, i + 1, y) && i + 1 + |y| < |s| && s[i + 1 + |y|] == QUOTE
  {
    hide *;
    AtSplit(s, i, [COMMA], y + ([QUOTE] + rest));
    AtSplit(s, i + 1, y, [QUOTE] + rest);
    AtBound(s, i + 1 + |y|, [QUOTE] + rest);
    AtElement(s, i + 1 + |y|, [QUOTE] + rest, 0);
  }

  lemma DoublePieces(s: Text, lead: Text, x: Text, ws: Text, rest: Text)
    requires At(s, 0, lead + ([LBRACE] + x + ([COMMA] + ws)) + ([COMMA] + (BREAK + ([QUOTE] + rest))))
    ensures At(s, 0, lead) && At(s, |lead|, [LBRACE]) && At(s, |lead| + 1, x)
    ensures var n := |lead| + 1 + |x|;
            && At(s, n, [COMMA]) && At(s, n + 1, ws) && At(s, n + 1 + |ws|, [COMMA]) && At(s, n + 2 + |ws|, BREAK)
            && n + 2 + |ws| + |BREAK| < |s| && s[n + 2 + |ws| + |BREAK|] == QUOTE
  {
    hide *;
    var a, b := lead + ([LBRACE] + x + ([COMMA] + ws)), [COMMA] + (BREAK + ([QUOTE] + rest));
    var n := |lead| + 1 + |x|;
    AtSplit(s, 0, a, b);
    HeadPieces(s, lead, x, [COMMA] + ws);
    AtSplit(s, n, [COMMA], ws);
    TailPieces(s, n + 1 + |ws|, BREAK, rest);
  }

  lemma DoubleParts(s: Text, lead: Text, es: seq<Entry>, ws: Text, rest: Text)
    requires s == lead + ([LBRACE] + PrintEntries(es) + ([COMMA] + ws)) + ([COMMA] + (BREAK + ([QUOTE] + rest)))
    ensures DoubleComma(s, lead, es, ws)
  {
    hide At, PrintEntries;
    AtWhole(s);
    DoublePieces(s, lead, PrintEntries(es), ws, rest);
  }

  lemma InsertedDouble(d: Document, key: Text, us: seq<Update>)
    requires d.root.Group? && d.root.tail.TrailingComma? && d.root.entries != []
    ensures DoubleComma(InsertedText(d, key, us), d.lead, d.root.entries, d.root.tail.ws)
  {
    hide PrintEntries, QuoteBody, MembersText, DoubleComma;
    var k, m := QuoteBody(key), [COLON, SPACE, LBRACE, SPACE] + MembersText(us) + [SPACE, RBRACE, NEWLINE];
    var rest := k + [QUOTE] + m + ([RBRACE] + d.trail);
    var a := d.lead + ([LBRACE] + PrintEntries(d.root.entries) + ([COMMA] + d.root.tail.ws));
    assert PropertyText(key, us) == BREAK + ([QUOTE] + k + [QUOTE]) + m;
    assert a + ([COMMA] + (BREAK + ([QUOTE] + k + [QUOTE]) + m)) + ([RBRACE] + d.trail) ==
           a + ([COMMA] + (BREAK + ([QUOTE] + rest)));
    DoubleParts(InsertedText(d, key, us), d.lead, d.root.entries, d.root.tail.ws, rest);
  }

  /** With a trailing comma at the root, the updated text has two commas in a row and does not parse. */
  lemma InsertionFails(d: Document, key: Text, us: seq<Update>)
    requires ValidDocument(d) && d.root.Group? && d.root.obj && !HasKey(d.root.entries, key)
    requires d.root.tail.TrailingComma?
    ensures var out := UpdateStringMap(PrintDocument(d), key, us);
            out.Ok? && ParseConfig(out.value) == None
  {
    hide PrintDocument, UpdateStringMap, IsGap, IsEnding, HasKey, InsertedText, DoubleComma, WellFormedEntries, Follows,
         CommaFollows, Lexes, LiteralsEnd, AllJsonSpace, JsonParse, BlankedEntries, StripText, CommaText;
    var es, ws := d.root.entries, d.root.tail.ws;
    var s := InsertedText(d, key, us);
    InsertsText(d, key, us);
    InsertedDouble(d, key, us);
    if Lexes(s, 0) {
      var t := StripText(s, 0);
      GapFollows(s);
      StripsDouble(s, t, d.lead, es, ws);
      CommaFollowsWhole(t);
      UncommaedCount(es);
      CommasDouble(t, CommaText(t, 0), BlankOf(d.lead), BlankedEntries(es), BlankOf(ws));
    }
  }

  /** The text with the new property parses exactly when no trailing comma stood in front of it. */
  lemma InsertionParses(d: Document, key: Text, us: seq<Update>)
    requires ValidDocument(d) && d.root.Group? && d.root.obj && !HasKey(d.root.entries, key)
    ensures var out := UpdateStringMap(PrintDocument(d), key, us);
            out.Ok? && (ParseConfig(out.value).Some? <==> d.root.tail.NoComma?)
  {
    hide ParseConfig, PrintDocument, UpdateStringMap, WellFormedEntries, IsGap, IsEnding, Extended, HasKey, InsertedText,
         Denote;
    if d.root.tail.NoComma? {
      InsertsText(d, key, us);
      PrintsExtended(d, key, us);
      ExtendedWellFormed(d.root, key, us);
      ParsesConfig(d.(root := Extended(d.root, key, us)));
    } else {
      InsertionFails(d, key, us);
    }
  }
}
