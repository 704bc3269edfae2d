// Reading and writing `.env` files.

module EnvFile {
  import opened Results
  import opened Texts
  import opened TextLines

  const EQUALS: Code := 0x3D
  const HASH: Code := 0x23
  const RETURN: Code := 0x0D
  const UNDERSCORE: Code := 0x5F

  predicate StartsName(c: Code) {
    0x41 <= c <= 0x5A || 0x61 <= c <= 0x7A || c == UNDERSCORE
  }

  /** `/^[A-Za-z_][A-Za-z0-9_]*$/`. */
  predicate IsEnvVarName(t: Text) {
    t != [] && StartsName(t[0]) && forall k :: 0 <= k < |t| ==> StartsName(t[k]) || IsDigit(t[k])
  }

  /** A name is not empty, starts with no digit, and has letters, digits and underscores only. */
  lemma NameExactly(t: Text)
    ensures IsEnvVarName(t) <==>
            && |t| > 0 && !(0x30 <= t[0] <= 0x39)
            && forall c :: c in t ==> 0x30 <= c <= 0x39 || 0x41 <= c <= 0x5A || 0x61 <= c <= 0x7A || c == 0x5F
  {
    forall k | 0 <= k < |t| ensures t[k] in t {
    }
  }

  function IndexOf(t: Text, c: Code): (r: Option<nat>)
    ensures r.Some? ==> r.value < |t| && t[r.value] == c && forall k :: 0 <= k < r.value ==> t[k] != c
    ensures r.None? ==> forall k :: 0 <= k < |t| ==> t[k] != c
  {
    if t == [] then None
    else if t[0] == c then Some(0)
    else match IndexOf(t[1..], c)
         case None => (assert forall k :: 1 <= k < |t| ==> t[k] == t[1..][k - 1]; None)
         case Some(i) => (assert forall k :: 1 <= k < |t| ==> t[k] == t[1..][k - 1]; Some(i + 1))
  }

  // ---------------------------------------------------------------------------
  // Specification
  // ---------------------------------------------------------------------------

  /** What stands in front of the first `=` of a line that is neither blank nor a comment. */
  function KeyOf(line: Text): Option<Text> {
    var t := Trim(line);
    if t == [] || t[0] == HASH then None
    else match IndexOf(t, EQUALS)
         case None => None
         case Some(eq) => if eq == 0 then None else Some(Trim(t[..eq]))
  }

  function ValueOf(line: Text): Text {
    var t := Trim(line);
    match IndexOf(t, EQUALS) case None => [] case Some(eq) => t[eq + 1..]
  }

  /** The line assigns the variable. */
  predicate Assigns(line: Text, key: Text) {
    KeyOf(line) == Some(key)
  }

  function ReadLine(m: map<Text, Text>, line: Text): map<Text, Text> {
    if KeyOf(line).Some? && IsEnvVarName(KeyOf(line).value) then m[KeyOf(line).value := ValueOf(line)] else m
  }

  function ReadLines(m: map<Text, Text>, ls: seq<Text>): map<Text, Text>
    decreases |ls|
  {
    if ls == [] then m else ReadLines(ReadLine(m, ls[0]), ls[1..])
  }

  /** The variables of a file; a missing file has none. */
  function Variables(content: Option<Text>): map<Text, Text> {
    match content case None => map[] case Some(t) => ReadLines(map[], SplitLines(t))
  }

  /** The lines of a file, without the empty one behind its last line break. */
  function LinesOf(content: Option<Text>): seq<Text> {
    match content
    case None => []
    case Some(t) =>
      var ls := SplitLines(t);
      if ls[|ls| - 1] == [] then ls[..|ls| - 1] else ls
  }

  /** The lines with the variable's first line replaced by `entry` and its others removed. */
  function Rewrite(ls: seq<Text>, key: Text, entry: Text, placed: bool): seq<Text> {
    if ls == [] then (if placed then [] else [entry])
    else if !Assigns(ls[0], key) then [ls[0]] + Rewrite(ls[1..], key, entry, placed)
    else if placed then Rewrite(ls[1..], key, entry, placed)
    else [entry] + Rewrite(ls[1..], key, entry, true)
  }

  function Entry(key: Text, value: Text): Text {
    key + [EQUALS] + value
  }

  function Written(content: Option<Text>, key: Text, value: Text): Text {
    JoinLines(Rewrite(LinesOf(content), key, Entry(key, value), false))
  }

  datatype WriteError = BadName | SeveralLines

  predicate IsSingleLine(value: Text) {
    forall k :: 0 <= k < |value| ==> value[k] != NEWLINE && value[k] != RETURN
  }

  // ---------------------------------------------------------------------------
  // The file
  // ---------------------------------------------------------------------------

  method RewriteLoop(lines: seq<Text>, key: Text, entry: Text) returns (next: seq<Text>)
    ensures next == Rewrite(lines, key, entry, false)
  {
    hide KeyOf;
    next := [];
    var placed := false;
    for i := 0 to |lines|
      invariant next + Rewrite(lines[i..], key, entry, placed) == Rewrite(lines, key, entry, false)
    {
      RewriteStep(lines, i, key, entry, placed, next);
      if !Assigns(lines[i], key) {
        next := next + [lines[i]];
      } else if !placed {
        next := next + [entry];
        placed := true;
      }
    }
    if !placed {
      next := next + [entry];
    }
  }

  /** What one round of the loop adds. */
  lemma RewriteStep(ls: seq<Text>, i: nat, key: Text, entry: Text, placed: bool, next: seq<Text>)
    requires i < |ls|
    ensures var own := Assigns(ls[i], key);
            var one := if !own then [ls[i]] else if placed then [] else [entry];
            next + Rewrite(ls[i..], key, entry, placed) == next + one + Rewrite(ls[i + 1..], key, entry, placed || own)
    ensures next + [] == next
  {
    hide KeyOf;
    assert ls[i..][0] == ls[i] && ls[i..][1..] == ls[i + 1..];
  }

  /** A file that may not exist; `mode` is its permissions. */
  class File {
    var content: Option<Text>
    var mode: nat

    constructor (content: Option<Text>, mode: nat)
      ensures this.content == content && this.mode == mode
    {
      this.content := content;
      this.mode := mode;
    }

    method ReadEnvFile() returns (out: map<Text, Text>)
      ensures out == Variables(content)
    {
      hide KeyOf, ValueOf, SplitLines, Trim;
      out := map[];
      if content.None? {
        return;
      }
      var lines := SplitLines(content.value);
      for i := 0 to |lines|
        invariant ReadLines(out, lines[i..]) == ReadLines(map[], lines)
      {
        assert lines[i..][0] == lines[i] && lines[i..][1..] == lines[i + 1..];
        var key := KeyOf(lines[i]);
        if key.None? {
          continue;
        }
        if IsEnvVarName(key.value) {
          out := out[key.value := ValueOf(lines[i])];
        }
      }
    }

    /** Sets a variable; a new file is private, an existing one keeps its permissions. */
    method WriteEnvValue(key: Text, value: Text) returns (error: Option<WriteError>)
      modifies this
      ensures error == if !IsEnvVarName(key) then Some(BadName)
                       else if 0x0A in value || 0x0D in value then Some(SeveralLines) else None
      ensures error.Some? ==> content == old(content) && mode == old(mode)
      ensures error.None? ==> content == Some(Written(old(content), key, value))
      ensures error.None? ==> mode == if old(content).Some? then old(mode) else 0x180
    {
      hide KeyOf, SplitLines, JoinLines, Rewrite, Entry;
      if !IsEnvVarName(key) {
        return Some(BadName);
      }
      if !IsSingleLine(value) {
        return Some(SeveralLines);
      }
      var lines: seq<Text> := if content.Some? then SplitLines(content.value) else [];
      if |lines| > 0 && lines[|lines| - 1] == [] {
        lines := lines[..|lines| - 1];
      }
      var next := RewriteLoop(lines, key, Entry(key, value));
      mode := if content.Some? then mode else 0x180;
      content := Some(JoinLines(next));
      return None;
    }
  }

  // ---------------------------------------------------------------------------
  // Reading what was written
  // ---------------------------------------------------------------------------

  /** In any line: white space, the name, white space, `=`, and the value. */
  predicate LineAssigns(line: Text, key: Text, a: nat, e: nat) {
    && a + |key| <= e < |line| && line[e] == EQUALS && line[a..a + |key|] == key
    && (forall k :: 0 <= k < a ==> IsSpace(line[k])) && forall k :: a + |key| <= k < e ==> IsSpace(line[k])
  }

  lemma {:induction false} TrimmedStart(t: Text) returns (a: nat)
    ensures a <= |t| && TrimStart(t) == t[a..] && (forall k :: 0 <= k < a ==> IsSpace(t[k]))
    ensures a < |t| ==> !IsSpace(t[a])
  {
    hide IsSpace;
    a := 0;
    if t != [] && IsSpace(t[0]) {
      a := TrimmedStart(t[1..]);
      assert forall k :: 1 <= k < |t| ==> t[k] == t[1..][k - 1];
      a := a + 1;
    }
  }

  /** Where the trimmed text stands. */
  lemma Trimmed(t: Text) returns (a: nat)
    ensures a + |Trim(t)| <= |t| && t[a..a + |Trim(t)|] == Trim(t)
    ensures forall k :: 0 <= k < a || a + |Trim(t)| <= k < |t| ==> IsSpace(t[k])
    ensures Trim(t) != [] ==> !IsSpace(Trim(t)[0]) && !IsSpace(Trim(t)[|Trim(t)| - 1])
  {
    hide IsSpace;
    a := TrimmedStart(t);
    var m, v := t[a..], Trim(t);
    assert v == m[..|v|];
    forall k | a + |v| <= k < |t| ensures IsSpace(t[k]) {
      assert t[k] == m[k - a];
    }
    if v != [] {
      assert v[0] == m[0];
    }
  }

  lemma EqualsIsNoSpace()
    ensures !IsSpace(EQUALS) && EQUALS != HASH
  {
  }

  /** A line that is read as an assignment of the variable has this form. */
  lemma ReadsForm(line: Text, key: Text) returns (a: nat, e: nat)
    requires IsEnvVarName(key) && KeyOf(line) == Some(key)
    ensures LineAssigns(line, key, a, e)
  {
    hide Trim, IsSpace, IsEnvVarName;
    var t := Trim(line);
    var b := Trimmed(line);
    var eq := IndexOf(t, EQUALS).value;
    var c := Trimmed(t[..eq]);
    a, e := b + c, b + eq;
    assert forall k :: 0 <= k < |t| ==> t[k] == line[b + k];
    assert forall k :: 0 <= k < eq ==> t[..eq][k] == line[b + k];
    assert line[a..a + |key|] == t[..eq][c..c + |key|];
    forall k | 0 <= k < a ensures IsSpace(line[k]) {
      assert k >= b ==> line[k] == t[..eq][k - b];
    }
    forall k | a + |key| <= k < e ensures IsSpace(line[k]) {
      assert line[k] == t[..eq][k - b];
    }
  }

  /** A line of this form is read as an assignment of what stands behind its `=`, trimmed. */
  lemma FormReads(line: Text, key: Text, a: nat, e: nat)
    requires IsEnvVarName(key) && LineAssigns(line, key, a, e)
    ensures KeyOf(line) == Some(key) && ValueOf(line) == TrimEnd(line[e + 1..])
  {
    hide IsSpace, IsEnvVarName, IndexOf, LineAssigns, TrimEnd, Trim;
    FormEnds(line, key, a, e);
    FormTrims(line, key, a, e);
    var head, v := line[a..e + 1], TrimEnd(line[e + 1..]);
    FormHead(line, key, a, e);
    var t := head + v;
    assert t[0] == head[0] && forall k :: 0 <= k <= e - a ==> t[k] == head[k];
    IndexIs(t, e - a);
    assert t[..e - a] == line[a..e] && t[e - a + 1..] == v;
    KeyTrims(line, key, a, e);
  }

  lemma FormEnds(line: Text, key: Text, a: nat, e: nat)
    requires IsEnvVarName(key) && LineAssigns(line, key, a, e)
    ensures a < e < |line|
  {
  }

  lemma FormHead(line: Text, key: Text, a: nat, e: nat)
    requires IsEnvVarName(key) && LineAssigns(line, key, a, e)
    ensures var head := line[a..e + 1];
            head[0] != HASH && head[e - a] == EQUALS && forall k :: 0 <= k < e - a ==> head[k] != EQUALS
  {
    hide IsSpace, IsEnvVarName;
    NameHasNoSpace(key);
    NameIsSome(key);
    EqualsIsNoSpace();
    var head := line[a..e + 1];
    forall k | 0 <= k < e - a ensures head[k] == line[a + k] && head[k] != EQUALS {
      assert k < |key| ==> line[a..a + |key|][k] == line[a + k];
    }
    assert line[a..a + |key|][0] == line[a];
  }

  lemma {:induction false} IndexIs(t: Text, i: nat)
    requires i < |t| && t[i] == EQUALS && forall k :: 0 <= k < i ==> t[k] != EQUALS
    ensures IndexOf(t, EQUALS) == Some(i)
  {
    if i > 0 {
      IndexIs(t[1..], i - 1);
    }
  }

  lemma {:induction false} StartTrims(t: Text, a: nat)
    requires a <= |t| && (forall k :: 0 <= k < a ==> IsSpace(t[k])) && (a < |t| ==> !IsSpace(t[a]))
    ensures TrimStart(t) == t[a..]
  {
    hide IsSpace;
    if a > 0 {
      StartTrims(t[1..], a - 1);
      assert t[1..][a - 1..] == t[a..];
    }
  }

  lemma FormTrims(line: Text, key: Text, a: nat, e: nat)
    requires IsEnvVarName(key) && LineAssigns(line, key, a, e)
    ensures Trim(line) == line[a..e + 1] + TrimEnd(line[e + 1..])
  {
    hide IsSpace, IsEnvVarName, TrimEnd;
    NameHasNoSpace(key);
    NameIsSome(key);
    EqualsIsNoSpace();
    assert line[a..a + |key|][0] == line[a] == key[0];
    StartTrims(line, a);
    var head, v := line[a..e + 1], line[e + 1..];
    assert line[a..] == head + v;
    TrimEndConcat(head, v);
  }

  lemma NameIsSome(key: Text)
    requires IsEnvVarName(key)
    ensures key != []
  {
  }

  lemma KeyTrims(line: Text, key: Text, a: nat, e: nat)
    requires IsEnvVarName(key) && LineAssigns(line, key, a, e)
    ensures Trim(line[a..e]) == key
  {
    hide IsSpace, IsEnvVarName, TrimEnd;
    NameHasNoSpace(key);
    NameIsSome(key);
    var t, gap := line[a..e], line[a + |key|..e];
    assert t == key + gap && line[a..a + |key|][0] == line[a] == key[0];
    StartTrims(t, 0);
    assert t[0..] == t;
    TrimEndConcat(key, gap);
    BlankTrims(gap);
    assert key + [] == key;
  }

  lemma {:induction false} BlankTrims(t: Text)
    requires forall k :: 0 <= k < |t| ==> IsSpace(t[k])
    ensures TrimEnd(t) == []
  {
    hide IsSpace;
    if t != [] {
      BlankTrims(t[..|t| - 1]);
    }
  }

  /** A line assigns a variable exactly if it has this form, comments and blank lines excluded by it. */
  lemma AssignsExactly(line: Text, key: Text)
    requires IsEnvVarName(key)
    ensures Assigns(line, key) <==> exists a: nat, e: nat :: LineAssigns(line, key, a, e)
    ensures forall a: nat, e: nat :: LineAssigns(line, key, a, e) ==> ValueOf(line) == TrimEnd(line[e + 1..])
  {
    hide KeyOf, ValueOf, IsEnvVarName, LineAssigns, TrimEnd;
    if Assigns(line, key) {
      var a, e := ReadsForm(line, key);
    }
    forall a: nat, e: nat | LineAssigns(line, key, a, e)
      ensures e < |line| && Assigns(line, key) && ValueOf(line) == TrimEnd(line[e + 1..])
    {
      FormEnds(line, key, a, e);
      FormReads(line, key, a, e);
    }
  }

  lemma NameHasNoSpace(key: Text)
    requires IsEnvVarName(key)
    ensures forall k :: 0 <= k < |key| ==> !IsSpace(key[k]) && key[k] != EQUALS && key[k] != HASH && key[k] != NEWLINE
    ensures Trim(key) == key
  {
  }

  lemma IndexOfEquals(key: Text, rest: Text)
    requires IsEnvVarName(key)
    ensures IndexOf(key + [EQUALS] + rest, EQUALS) == Some(|key|)
  {
    var t := key + [EQUALS] + rest;
    assert t[|key|] == EQUALS;
    forall k | 0 <= k < |key| ensures t[k] != EQUALS {
      assert t[k] == key[k];
    }
  }

  /** The written line assigns the variable its value without trailing white space. */
  lemma EntryReads(key: Text, value: Text)
    requires IsEnvVarName(key)
    ensures KeyOf(Entry(key, value)) == Some(key) && ValueOf(Entry(key, value)) == TrimEnd(value)
  {
    hide TrimEnd, IndexOf, IsEnvVarName, Trim;
    var t := key + [EQUALS] + TrimEnd(value);
    NameHasNoSpace(key);
    EntryTrims(key, value);
    IndexOfEquals(key, TrimEnd(value));
    assert t[..|key|] == key && t[|key| + 1..] == TrimEnd(value) && t[0] == key[0];
  }

  lemma EntryTrims(key: Text, value: Text)
    requires IsEnvVarName(key)
    ensures Trim(Entry(key, value)) == key + [EQUALS] + TrimEnd(value) && key != []
  {
    hide TrimEnd;
    var t := Entry(key, value);
    assert t[0] == key[0];
    TrimEndConcat(key + [EQUALS], value);
  }

  /** The value that the last assigning line gives. */
  function LastFor(ls: seq<Text>, key: Text): Option<Text> {
    if ls == [] then None
    else
      var r := LastFor(ls[1..], key);
      if r.Some? then r else if Assigns(ls[0], key) then Some(ValueOf(ls[0])) else None
  }

  lemma {:induction false} ReadsLast(m: map<Text, Text>, ls: seq<Text>, key: Text)
    requires IsEnvVarName(key)
    ensures key in ReadLines(m, ls) <==> LastFor(ls, key).Some? || key in m
    ensures LastFor(ls, key).Some? ==> ReadLines(m, ls)[key] == LastFor(ls, key).value
    ensures LastFor(ls, key).None? && key in m ==> ReadLines(m, ls)[key] == m[key]
    decreases |ls|
  {
    hide KeyOf, ValueOf, IsEnvVarName;
    if ls != [] {
      ReadsLast(ReadLine(m, ls[0]), ls[1..], key);
    }
  }

  lemma {:induction false} ReadsNames(m: map<Text, Text>, ls: seq<Text>)
    requires forall k :: k in m ==> IsEnvVarName(k)
    ensures forall k :: k in ReadLines(m, ls) ==> IsEnvVarName(k)
    decreases |ls|
  {
    hide KeyOf, ValueOf, IsEnvVarName;
    if ls != [] {
      ReadsNames(ReadLine(m, ls[0]), ls[1..]);
    }
  }

  /** Rewriting decides the variable and leaves the others. */
  lemma {:induction false} RewriteReads(ls: seq<Text>, key: Text, entry: Text, placed: bool, other: Text)
    requires Assigns(entry, key)
    ensures var r := Rewrite(ls, key, entry, placed);
            LastFor(r, other) ==
            if other != key then LastFor(ls, other) else if placed then None else Some(ValueOf(entry))
  {
    hide KeyOf, ValueOf;
    if ls == [] {
      assert [entry][1..] == [];
    } else {
      RewriteReads(ls[1..], key, entry, placed || Assigns(ls[0], key), other);
      var r := Rewrite(ls, key, entry, placed);
      var rest := Rewrite(ls[1..], key, entry, placed || Assigns(ls[0], key));
      if !Assigns(ls[0], key) || !placed {
        assert r[1..] == rest;
      }
    }
  }

  function Others(ls: seq<Text>, key: Text): seq<Text> {
    if ls == [] then [] else (if Assigns(ls[0], key) then [] else [ls[0]]) + Others(ls[1..], key)
  }

  function Own(ls: seq<Text>, key: Text): seq<Text> {
    if ls == [] then [] else (if Assigns(ls[0], key) then [ls[0]] else []) + Own(ls[1..], key)
  }

  /** Lines of other variables keep their text and order; one line for the variable remains. */
  lemma {:induction false} RewriteKeeps(ls: seq<Text>, key: Text, entry: Text, placed: bool)
    requires Assigns(entry, key)
    ensures Others(Rewrite(ls, key, entry, placed), key) == Others(ls, key)
    ensures Own(Rewrite(ls, key, entry, placed), key) == if placed then [] else [entry]
  {
    hide KeyOf;
    if ls == [] {
      assert [entry][1..] == [];
    } else {
      var now := placed || Assigns(ls[0], key);
      var rest := Rewrite(ls[1..], key, entry, now);
      RewriteKeeps(ls[1..], key, entry, now);
      assert [] + Others(ls[1..], key) == Others(ls[1..], key) && [] + Own(rest, key) == Own(rest, key);
      assert ([ls[0]] + rest)[1..] == rest && ([entry] + rest)[1..] == rest;
    }
  }

  /** Rewriting the rewritten lines changes nothing. */
  lemma {:induction false} RewriteTwice(ls: seq<Text>, key: Text, entry: Text, placed: bool)
    requires Assigns(entry, key)
    ensures var r := Rewrite(ls, key, entry, placed);
            Rewrite(r, key, entry, placed) == r
  {
    hide KeyOf;
    if ls == [] {
      assert [entry][1..] == [];
    } else {
      var now := placed || Assigns(ls[0], key);
      var rest := Rewrite(ls[1..], key, entry, now);
      RewriteTwice(ls[1..], key, entry, now);
      assert ([ls[0]] + rest)[1..] == rest && ([entry] + rest)[1..] == rest;
    }
  }

  lemma {:induction false} RewriteLines(ls: seq<Text>, key: Text, entry: Text, placed: bool)
    requires AreLines(ls) && IsLine(entry)
    ensures AreLines(Rewrite(ls, key, entry, placed))
    ensures !placed ==> Rewrite(ls, key, entry, placed) != []
  {
    hide IsLine, KeyOf;
    if ls != [] {
      RewriteLines(ls[1..], key, entry, placed || Assigns(ls[0], key));
    }
  }

  lemma EntryIsLine(key: Text, value: Text)
    requires IsEnvVarName(key) && IsSingleLine(value)
    ensures IsLine(Entry(key, value))
  {
    NameHasNoSpace(key);
  }

  lemma LinesAreLines(content: Option<Text>)
    ensures AreLines(LinesOf(content))
  {
    hide SplitLines;
    if content.Some? {
      SplitGivesLines(content.value);
    }
  }

  /** The lines of the written file are the rewritten lines. */
  lemma WrittenLines(content: Option<Text>, key: Text, value: Text)
    requires IsEnvVarName(key) && IsSingleLine(value)
    ensures var r := Rewrite(LinesOf(content), key, Entry(key, value), false);
            && SplitLines(Written(content, key, value)) == r + [[]]
            && LinesOf(Some(Written(content, key, value))) == r
  {
    hide SplitLines, JoinLines, LinesOf, Entry, IsEnvVarName, IsSingleLine;
    var r := Rewrite(LinesOf(content), key, Entry(key, value), false);
    LinesAreLines(content);
    EntryIsLine(key, value);
    RewriteLines(LinesOf(content), key, Entry(key, value), false);
    SplitJoined(r);
    DropsLast(Written(content, key, value), r);
  }

  lemma DropsLast(t: Text, r: seq<Text>)
    requires SplitLines(t) == r + [[]]
    ensures LinesOf(Some(t)) == r
  {
    hide SplitLines;
    assert (r + [[]])[..|r|] == r;
  }

  lemma {:induction false} LastForConcat(a: seq<Text>, key: Text)
    ensures LastFor(a + [[]], key) == LastFor(a, key)
  {
    hide KeyOf, ValueOf;
    if a == [] {
      EmptyLine(key);
      var none: seq<Text> := [[]];
      assert a + none == none && none[1..] == [];
    } else {
      assert (a + [[]])[1..] == a[1..] + [[]];
      LastForConcat(a[1..], key);
    }
  }

  lemma EmptyLine(key: Text)
    ensures !Assigns([], key)
  {
  }

  lemma LinesReadAlike(content: Option<Text>, key: Text)
    ensures content.Some? ==> LastFor(SplitLines(content.value), key) == LastFor(LinesOf(content), key)
  {
    hide SplitLines, LastFor;
    if content.Some? {
      var ls := SplitLines(content.value);
      if ls[|ls| - 1] == [] {
        assert ls == ls[..|ls| - 1] + [[]];
        LastForConcat(ls[..|ls| - 1], key);
      }
    }
  }

  /** What a file says about a variable is what its last line for it says. */
  lemma VariableIs(content: Option<Text>, key: Text)
    requires IsEnvVarName(key)
    ensures key in Variables(content) <==> LastFor(LinesOf(content), key).Some?
    ensures key in Variables(content) ==> Variables(content)[key] == LastFor(LinesOf(content), key).value
    ensures forall k :: k in Variables(content) ==> IsEnvVarName(k)
  {
    hide SplitLines, LastFor, IsEnvVarName, ReadLines;
    LinesReadAlike(content, key);
    if content.Some? {
      ReadsLast(map[], SplitLines(content.value), key);
      ReadsNames(map[], SplitLines(content.value));
    } else {
      NoLines(key);
    }
  }

  lemma NoLines(key: Text)
    ensures LastFor([], key) == None
  {
  }

  /**
   * Reading the file after a write gives the old variables with this one set to its value, without
   * the value's trailing white space.
   */
  lemma WriteThenRead(content: Option<Text>, key: Text, value: Text)
    requires IsEnvVarName(key) && IsSingleLine(value)
    ensures Variables(Some(Written(content, key, value))) == Variables(content)[key := TrimEnd(value)]
  {
    hide SplitLines, LastFor, IsEnvVarName, IsSingleLine, Variables, Written, Rewrite, LinesOf, KeyOf, ValueOf, TrimEnd,
         Entry;
    var after, before := Variables(Some(Written(content, key, value))), Variables(content);
    WrittenLines(content, key, value);
    EntryReads(key, value);
    VariableIs(content, key);
    VariableIs(Some(Written(content, key, value)), key);
    forall k | IsEnvVarName(k)
      ensures k in after <==> k in before || k == key
      ensures k in after ==> after[k] == if k == key then TrimEnd(value) else before[k]
    {
      VariableIs(content, k);
      VariableIs(Some(Written(content, key, value)), k);
      RewriteReads(LinesOf(content), key, Entry(key, value), false, k);
    }
  }

  /** Writing keeps every line for another variable, in order, and leaves one line for this one. */
  lemma WriteKeepsLines(content: Option<Text>, key: Text, value: Text)
    requires IsEnvVarName(key) && IsSingleLine(value)
    ensures var after := LinesOf(Some(Written(content, key, value)));
            && Others(after, key) == Others(LinesOf(content), key)
            && Own(after, key) == [Entry(key, value)]
  {
    hide LinesOf, Written, Rewrite, KeyOf, ValueOf, Entry, Others, Own, IsEnvVarName, IsSingleLine;
    WrittenLines(content, key, value);
    EntryReads(key, value);
    RewriteKeeps(LinesOf(content), key, Entry(key, value), false);
  }

  /** The variable's first line, or the number of lines if there is none. */
  function FirstOwn(ls: seq<Text>, key: Text): (i: nat)
    ensures i <= |ls|
  {
    if ls == [] || Assigns(ls[0], key) then 0 else 1 + FirstOwn(ls[1..], key)
  }

  lemma {:induction false} FirstOwnIs(ls: seq<Text>, key: Text)
    ensures var i := FirstOwn(ls, key);
            (i < |ls| ==> Assigns(ls[i], key)) && forall k :: 0 <= k < i ==> !Assigns(ls[k], key)
  {
    hide KeyOf;
    if ls != [] && !Assigns(ls[0], key) {
      FirstOwnIs(ls[1..], key);
      assert forall k :: 1 <= k < |ls| ==> ls[k] == ls[1..][k - 1];
    }
  }

  lemma {:induction false} RewritePlaces(ls: seq<Text>, key: Text, entry: Text)
    ensures var r, i := Rewrite(ls, key, entry, false), FirstOwn(ls, key);
            i < |r| && r[..i] == ls[..i] && r[i] == entry && (i == |ls| ==> |r| == i + 1)
  {
    hide KeyOf;
    if ls != [] && !Assigns(ls[0], key) {
      RewritePlaces(ls[1..], key, entry);
      var i := FirstOwn(ls[1..], key);
      assert ls[..i + 1] == [ls[0]] + ls[1..][..i];
      assert Rewrite(ls, key, entry, false)[..i + 1] == [ls[0]] + Rewrite(ls[1..], key, entry, false)[..i];
    }
  }

  /** The new line takes the place of the variable's first one; without one, it comes last. */
  lemma WritePlaces(content: Option<Text>, key: Text, value: Text)
    requires IsEnvVarName(key) && IsSingleLine(value)
    ensures var before, after := LinesOf(content), LinesOf(Some(Written(content, key, value)));
            var i := FirstOwn(before, key);
            && (i < |before| ==> Assigns(before[i], key)) && (forall k :: 0 <= k < i ==> !Assigns(before[k], key))
            && i < |after| && after[..i] == before[..i] && after[i] == Entry(key, value)
            && (i == |before| ==> |after| == i + 1)
  {
    hide LinesOf, Written, Rewrite, KeyOf, ValueOf, Entry, IsEnvVarName, IsSingleLine, FirstOwn;
    WrittenLines(content, key, value);
    FirstOwnIs(LinesOf(content), key);
    RewritePlaces(LinesOf(content), key, Entry(key, value));
  }

  /** Writing twice is writing once. */
  lemma WriteTwice(content: Option<Text>, key: Text, value: Text)
    requires IsEnvVarName(key) && IsSingleLine(value)
    ensures Written(Some(Written(content, key, value)), key, value) == Written(content, key, value)
  {
    hide LinesOf, Rewrite, KeyOf, ValueOf, Entry, IsEnvVarName, IsSingleLine, JoinLines;
    WrittenLines(content, key, value);
    EntryReads(key, value);
    RewriteTwice(LinesOf(content), key, Entry(key, value), false);
  }
}
