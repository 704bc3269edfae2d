// Reading SMTP replies (RFC 5321, section 4.2.1) from chunks that may end anywhere.

module SmtpReplies {
  import opened Results
  import opened Texts

  const CR: Code := 0x0D
  const DASH: Code := 0x2D

  datatype Reply = Reply(code: nat, text: Text)

  datatype Error = Unparseable(line: Text) | Other(what: nat)

  // ---------------------------------------------------------------------------
  // A reply in a text
  // ---------------------------------------------------------------------------

  /** The first line break (CR LF) at or behind `i`. */
  function FindBreak(s: Text, i: nat): (r: Option<nat>)
    ensures r.Some? ==> i <= r.value && r.value + 2 <= |s|
    decreases |s| - i
  {
    if i + 2 > |s| then None
    else if s[i] == CR && s[i + 1] == NEWLINE then Some(i)
    else FindBreak(s, i + 1)
  }

  /** `/^\d{3}[ -]/`. */
  predicate IsReplyLine(line: Text) {
    && |line| >= 4 && IsDigit(line[0]) && IsDigit(line[1]) && IsDigit(line[2])
    && (line[3] == SPACE || line[3] == DASH)
  }

  function CodeOf(line: Text): nat
    requires IsReplyLine(line)
  {
    (line[0] - 0x30) * 100 + (line[1] - 0x30) * 10 + (line[2] - 0x30)
  }

  datatype Reading = Incomplete | Bad(line: Text) | Complete(reply: Reply, rest: Text)

  /** The reply whose lines are read from `i`; `text` is what its earlier lines said. */
  function ReadFrom(s: Text, i: nat, text: Text): Reading
    requires i <= |s|
    decreases |s| - i
  {
    match FindBreak(s, i)
    case None => Incomplete
    case Some(e) =>
      var line := s[i..e];
      if !IsReplyLine(line) then Bad(line)
      else if line[3] == SPACE then Complete(Reply(CodeOf(line), text + line[4..]), s[e + 2..])
      else ReadFrom(s, e + 2, text + line[4..] + [NEWLINE])
  }

  function ReadReply(s: Text): Reading {
    ReadFrom(s, 0, [])
  }

  /** `text.split("\r\n")` from `i` on. */
  function SplitBreaks(s: Text, i: nat): (ls: seq<Text>)
    requires i <= |s|
    ensures ls != []
    decreases |s| - i
  {
    match FindBreak(s, i) case None => [s[i..]] case Some(e) => [s[i..e]] + SplitBreaks(s, e + 2)
  }

  /** `lines.join("\r\n")`. */
  function JoinBreaks(ls: seq<Text>): Text
    requires ls != []
  {
    if |ls| == 1 then ls[0] else ls[0] + [CR, NEWLINE] + JoinBreaks(ls[1..])
  }

  // ---------------------------------------------------------------------------
  // The probe
  // ---------------------------------------------------------------------------

  datatype Answer = Resolved(reply: Reply) | Rejected(error: Error)

  /** `waiting` says whether a read waits; `answer` is what the last one got. */
  datatype State = State(buffer: Text, waiting: bool, failure: Option<Error>, answer: Option<Answer>)

  function AfterFail(s: State, e: Error): State {
    s.(failure := if s.failure.Some? then s.failure else Some(e), waiting := false,
       answer := if s.waiting then Some(Rejected(e)) else s.answer)
  }

  function AfterData(s: State, chunk: Text): State {
    var t := s.(buffer := s.buffer + chunk);
    match ReadReply(t.buffer)
    case Incomplete => t
    case Bad(line) => AfterFail(t, Unparseable(line))
    case Complete(reply, rest) =>
      t.(buffer := rest, waiting := false, answer := if s.waiting then Some(Resolved(reply)) else s.answer)
  }

  function AfterRead(s: State): State {
    match s.failure
    case Some(e) => s.(answer := Some(Rejected(e)))
    case None => s.(waiting := true, answer := None)
  }

  class SmtpProbe {
    var buffer: Text
    var waiting: bool
    var failure: Option<Error>
    var answer: Option<Answer>

    ghost function Now(): State
      reads this
    {
      State(buffer, waiting, failure, answer)
    }

    constructor ()
      ensures Now() == State([], false, None, None)
    {
      buffer, waiting, failure, answer := [], false, None, None;
    }

    method Fail(e: Error)
      modifies this
      ensures Now() == AfterFail(old(Now()), e)
    {
      if failure.None? {
        failure := Some(e);
      }
      if waiting {
        answer := Some(Rejected(e));
      }
      waiting := false;
    }

    method Read()
      modifies this
      ensures Now() == AfterRead(old(Now()))
    {
      match failure {
        case Some(e) => answer := Some(Rejected(e));
        case None =>
          waiting := true;
          answer := None;
      }
    }

    method OnData(chunk: Text)
      modifies this
      ensures Now() == AfterData(old(Now()), chunk)
    {
      hide FindBreak, ReadFrom, SplitBreaks, IsDigit;
      buffer := buffer + chunk;
      ghost var s := buffer;
      var lines := SplitBreaks(buffer, 0);
      var text: Text := [];
      ghost var at: nat := 0;
      for i := 0 to |lines| - 1
        invariant at <= |s| && lines[i..] == SplitBreaks(s, at)
        invariant ReadReply(s) == ReadFrom(s, at, text)
        invariant Now() == old(Now()).(buffer := s)
      {
        LinesLeft(s, at, lines, i);
        ReadLine(s, at, text);
        var line := lines[i];
        if !IsReplyLine(line) {
          Fail(Unparseable(line));
          return;
        }
        text := text + line[4..];
        if line[3] == SPACE {
          buffer := JoinBreaks(lines[i + 1..]);
          if waiting {
            answer := Some(Resolved(Reply(CodeOf(line), text)));
          }
          waiting := false;
          return;
        }
        text := text + [NEWLINE];
        at := FindBreak(s, at).value + 2;
      }
      LastLine(s, at, lines);
      ReadLine(s, at, text);
    }
  }

  /** What the next line does to the reading. */
  lemma ReadLine(s: Text, i: nat, text: Text)
    requires i <= |s|
    ensures FindBreak(s, i).None? ==> ReadFrom(s, i, text) == Incomplete
    ensures FindBreak(s, i).Some? ==>
              var e := FindBreak(s, i).value;
              var line := s[i..e];
              && (!IsReplyLine(line) ==> ReadFrom(s, i, text) == Bad(line))
              && (IsReplyLine(line) ==>
                    ReadFrom(s, i, text) ==
                    if line[3] == SPACE then Complete(Reply(CodeOf(line), text + line[4..]), s[e + 2..])
                    else ReadFrom(s, e + 2, text + line[4..] + [NEWLINE]))
  {
    hide FindBreak, CodeOf;
  }

  lemma {:induction false} JoinsBack(s: Text, i: nat)
    requires i <= |s|
    ensures JoinBreaks(SplitBreaks(s, i)) == s[i..]
    decreases |s| - i
  {
    match FindBreak(s, i) {
      case None =>
      case Some(e) =>
        BreakStands(s, i);
        JoinsBack(s, e + 2);
        assert s[i..] == s[i..e] + [CR, NEWLINE] + s[e + 2..];
        assert ([s[i..e]] + SplitBreaks(s, e + 2))[1..] == SplitBreaks(s, e + 2);
    }
  }

  lemma {:induction false} BreakStands(s: Text, i: nat)
    requires FindBreak(s, i).Some?
    ensures var e := FindBreak(s, i).value; s[e] == CR && s[e + 1] == NEWLINE
    decreases |s| - i
  {
    if !(s[i] == CR && s[i + 1] == NEWLINE) {
      BreakStands(s, i + 1);
    }
  }

  /** In front of the last line, the next break is found and the lines behind it are what is left. */
  lemma LinesLeft(s: Text, at: nat, lines: seq<Text>, i: nat)
    requires at <= |s| && i < |lines| - 1 && lines[i..] == SplitBreaks(s, at)
    ensures FindBreak(s, at).Some?
    ensures var e := FindBreak(s, at).value;
            lines[i] == s[at..e] && lines[i + 1..] == SplitBreaks(s, e + 2) && JoinBreaks(lines[i + 1..]) == s[e + 2..]
  {
    hide FindBreak;
    assert lines[i..][0] == lines[i] && lines[i..][1..] == lines[i + 1..];
    if FindBreak(s, at).Some? {
      JoinsBack(s, FindBreak(s, at).value + 2);
    }
  }

  lemma LastLine(s: Text, at: nat, lines: seq<Text>)
    requires at <= |s| && lines != [] && lines[|lines| - 1..] == SplitBreaks(s, at)
    ensures FindBreak(s, at).None?
  {
    hide FindBreak;
  }

  // ---------------------------------------------------------------------------
  // More text
  // ---------------------------------------------------------------------------

  lemma {:induction false} BreakStays(a: Text, b: Text, i: nat)
    requires FindBreak(a, i).Some?
    ensures FindBreak(a + b, i) == FindBreak(a, i)
    decreases |a| - i
  {
    if !(a[i] == CR && a[i + 1] == NEWLINE) {
      BreakStays(a, b, i + 1);
    }
  }

  /** Once a reply is complete or a line is bad, more text changes nothing but what is left over. */
  lemma {:induction false} ReadingStays(a: Text, b: Text, i: nat, text: Text)
    requires i <= |a|
    ensures match ReadFrom(a, i, text)
            case Incomplete => true
            case Bad(line) => ReadFrom(a + b, i, text) == Bad(line)
            case Complete(reply, rest) => ReadFrom(a + b, i, text) == Complete(reply, rest + b)
    decreases |a| - i
  {
    hide FindBreak;
    if FindBreak(a, i).Some? {
      var e := FindBreak(a, i).value;
      BreakStays(a, b, i);
      assert (a + b)[i..e] == a[i..e] && (a + b)[e + 2..] == a[e + 2..] + b;
      var line := a[i..e];
      if IsReplyLine(line) && line[3] != SPACE {
        ReadingStays(a, b, e + 2, text + line[4..] + [NEWLINE]);
      }
    }
  }

  function Concat(chunks: seq<Text>): Text {
    if chunks == [] then [] else chunks[0] + Concat(chunks[1..])
  }

  function AfterAll(s: State, chunks: seq<Text>): State
    decreases |chunks|
  {
    if chunks == [] then s else AfterAll(AfterData(s, chunks[0]), chunks[1..])
  }

  lemma EmptyIsIncomplete()
    ensures ReadReply([]).Incomplete?
  {
  }

  /** Nothing happens while what has arrived is incomplete. */
  lemma {:induction false} StaysIncomplete(s: State, chunks: seq<Text>)
    requires ReadReply(s.buffer + Concat(chunks)).Incomplete?
    ensures AfterAll(s, chunks) == s.(buffer := s.buffer + Concat(chunks))
    decreases |chunks|
  {
    hide ReadFrom;
    if chunks == [] {
      assert s.buffer + [] == s.buffer;
    } else {
      var b := s.buffer + chunks[0];
      assert s.buffer + Concat(chunks) == b + Concat(chunks[1..]);
      ReadingStays(b, Concat(chunks[1..]), 0, []);
      StaysIncomplete(s.(buffer := b), chunks[1..]);
    }
  }

  /** After a bad line, more text changes only the buffer. */
  lemma {:induction false} StaysBad(s: State, chunks: seq<Text>)
    requires ReadReply(s.buffer).Bad? && s.failure.Some? && !s.waiting
    ensures AfterAll(s, chunks) == s.(buffer := s.buffer + Concat(chunks))
    decreases |chunks|
  {
    hide ReadFrom;
    if chunks == [] {
      assert s.buffer + [] == s.buffer;
    } else {
      var b := s.buffer + chunks[0];
      assert s.buffer + Concat(chunks) == b + Concat(chunks[1..]);
      ReadingStays(s.buffer, chunks[0], 0, []);
      StaysBad(s.(buffer := b), chunks[1..]);
    }
  }

  /** The reply with what follows it is not followed by a complete line of a further reply. */
  predicate Settled(r: Reading) {
    r.Complete? ==> ReadReply(r.rest).Incomplete?
  }

  /** Feeding a reply in chunks, wherever they end, is feeding it at once. */
  lemma {:induction false} ChunkingDoesNotMatter(s: State, chunks: seq<Text>)
    requires s.waiting && chunks != [] && ReadReply(s.buffer).Incomplete?
    requires Settled(ReadReply(s.buffer + Concat(chunks)))
    ensures AfterAll(s, chunks) == AfterData(s, Concat(chunks))
    decreases |chunks|
  {
    hide ReadFrom;
    var rest := Concat(chunks[1..]);
    var b := s.buffer + chunks[0];
    assert s.buffer + Concat(chunks) == b + rest;
    ReadingStays(b, rest, 0, []);
    if chunks[1..] == [] {
      assert chunks[0] + [] == chunks[0];
    } else {
      match ReadReply(b) {
        case Incomplete =>
          ChunkingDoesNotMatter(s.(buffer := b), chunks[1..]);
        case Bad(_) =>
          StaysBad(AfterData(s, chunks[0]), chunks[1..]);
        case Complete(_, left) =>
          StaysIncomplete(AfterData(s, chunks[0]), chunks[1..]);
      }
    }
  }

  lemma {:induction false} BreakInPrefix(a: Text, n: nat, i: nat)
    requires n <= |a| && FindBreak(a, i).Some? && FindBreak(a, i).value + 2 <= n
    ensures FindBreak(a[..n], i) == FindBreak(a, i)
    decreases |a| - i
  {
    if !(a[i] == CR && a[i + 1] == NEWLINE) {
      BreakInPrefix(a, n, i + 1);
    }
  }

  /** The text up to the end of a reply holds the reply and nothing behind it. */
  lemma {:induction false} PrefixCompletes(a: Text, i: nat, text: Text)
    requires i <= |a| && ReadFrom(a, i, text).Complete?
    ensures var r := ReadFrom(a, i, text);
            var n := |a| - |r.rest|;
            && i <= n && a == a[..n] + r.rest && ReadFrom(a[..n], i, text) == Complete(r.reply, [])
    decreases |a| - i
  {
    hide FindBreak, ReadFrom, IsReplyLine, CodeOf;
    ReadLine(a, i, text);
    var e := FindBreak(a, i).value;
    var line := a[i..e];
    ReplyLineIsLong(line);
    if line[3] != SPACE {
      PrefixCompletes(a, e + 2, text + line[4..] + [NEWLINE]);
    }
    var n := |a| - |ReadFrom(a, i, text).rest|;
    BreakInPrefix(a, n, i);
    ReadLine(a[..n], i, text);
    assert a[..n][i..e] == line;
    assert line[3] == SPACE ==> a[..n][e + 2..] == [];
  }

  lemma ReplyLineIsLong(line: Text)
    requires IsReplyLine(line)
    ensures |line| >= 4
  {
  }

  lemma {:induction false} ShorterRest(s: Text, i: nat, text: Text)
    requires i <= |s|
    ensures ReadFrom(s, i, text).Complete? ==> |ReadFrom(s, i, text).rest| < |s|
    decreases |s| - i
  {
    hide FindBreak;
    if FindBreak(s, i).Some? {
      var e := FindBreak(s, i).value;
      var line := s[i..e];
      if IsReplyLine(line) && line[3] != SPACE {
        ShorterRest(s, e + 2, text + line[4..] + [NEWLINE]);
      }
    }
  }

  ghost predicate AreChunks(chunks: seq<Text>, data: Text) {
    chunks != [] && Concat(chunks) == data && forall k :: 0 <= k < |chunks| ==> chunks[k] != []
  }

  /** If a further reply or a bad line follows, cutting the data behind the first reply makes a difference. */
  lemma FurtherReplyIsLost(s: State, data: Text) returns (chunks: seq<Text>)
    requires s.waiting && s.failure.None? && ReadReply(s.buffer).Incomplete?
    requires !Settled(ReadReply(s.buffer + data))
    ensures AreChunks(chunks, data) && AfterAll(s, chunks) != AfterData(s, data)
  {
    hide ReadFrom;
    var a := s.buffer + data;
    var rest := ReadReply(a).rest;
    PrefixCompletes(a, 0, []);
    var n := |a| - |rest|;
    PrefixIsLonger(s.buffer, data, n);
    var p := data[..n - |s.buffer|];
    EmptyIsIncomplete();
    chunks := [p, rest];
    assert s.buffer + p == a[..n] && data == p + rest;
    TwoChunks(s, p, rest);
    assert [] + rest == rest;
    ShorterRest(rest, 0, []);
  }

  lemma TwoChunks(s: State, p: Text, q: Text)
    ensures Concat([p, q]) == p + q && AfterAll(s, [p, q]) == AfterData(AfterData(s, p), q)
  {
    hide AfterData;
    assert [p, q][1..] == [q] && [q][1..] == [];
    assert Concat([q]) == q + [] == q;
    assert AfterAll(AfterData(s, p), [q]) == AfterAll(AfterData(AfterData(s, p), q), []);
  }

  /** An incomplete beginning is shorter than the complete one. */
  lemma PrefixIsLonger(a: Text, b: Text, n: nat)
    requires n <= |a + b| && ReadReply(a).Incomplete? && ReadReply((a + b)[..n]).Complete?
    ensures n > |a|
  {
    hide ReadFrom;
    if n <= |a| {
      assert (a + b)[..n] == a[..n] && a == a[..n] + a[n..];
      ReadingStays(a[..n], a[n..], 0, []);
    }
  }

  /**
   * Every chunking of the same bytes gives the same reply, failure and buffer exactly when what
   * follows the first reply does not itself hold a complete reply or a bad line.
   */
  lemma ChunkingMatters(s: State, data: Text)
    requires s.waiting && s.failure.None? && ReadReply(s.buffer).Incomplete?
    ensures (forall chunks: seq<Text> :: AreChunks(chunks, data) ==> AfterAll(s, chunks) == AfterData(s, data))
            <==> Settled(ReadReply(s.buffer + data))
  {
    hide ReadFrom, AfterData, AfterAll;
    if Settled(ReadReply(s.buffer + data)) {
      forall chunks: seq<Text> | AreChunks(chunks, data) ensures AfterAll(s, chunks) == AfterData(s, data) {
        ChunkingDoesNotMatter(s, chunks);
      }
    } else {
      var chunks := FurtherReplyIsLost(s, data);
    }
  }

  // ---------------------------------------------------------------------------
  // A conversation in lock-step
  // ---------------------------------------------------------------------------

  /** Each reply is read before the next command is sent; its chunks hold one whole reply. */
  ghost predicate IsExchange(chunks: seq<Text>) {
    var r := ReadReply(Concat(chunks));
    chunks != [] && r.Complete? && r.rest == []
  }

  /** The replies that the reads get, one after the other. */
  function Conversation(s: State, exchanges: seq<seq<Text>>): seq<Option<Answer>>
    decreases |exchanges|
  {
    if exchanges == [] then []
    else
      var t := AfterAll(AfterRead(s), exchanges[0]);
      [t.answer] + Conversation(t, exchanges[1..])
  }

  function Batch(exchanges: seq<seq<Text>>): seq<Option<Answer>>
  {
    if exchanges == [] then []
    else [match ReadReply(Concat(exchanges[0])) case Complete(r, _) => Some(Resolved(r)) case _ => None]
         + Batch(exchanges[1..])
  }

  /** In lock-step, the reads get exactly the replies that were sent, however they were cut. */
  lemma {:induction false} LockStep(s: State, exchanges: seq<seq<Text>>)
    requires s.buffer == [] && s.failure.None?
    requires forall k :: 0 <= k < |exchanges| ==> IsExchange(exchanges[k])
    ensures Conversation(s, exchanges) == Batch(exchanges)
    decreases |exchanges|
  {
    hide ReadFrom;
    if exchanges != [] {
      var c := exchanges[0];
      assert IsExchange(c);
      EmptyIsIncomplete();
      assert [] + Concat(c) == Concat(c);
      ChunkingDoesNotMatter(AfterRead(s), c);
      LockStep(AfterAll(AfterRead(s), c), exchanges[1..]);
    }
  }

  // ---------------------------------------------------------------------------
  // Replies as a server writes them
  // ---------------------------------------------------------------------------

  /** A reply of RFC 5321, section 4.2.1: a code of three digits and the texts of its lines. */
  datatype Written = Written(digits: Text, lines: seq<Text>)

  predicate IsWritten(w: Written) {
    && |w.digits| == 3 && IsDigit(w.digits[0]) && IsDigit(w.digits[1]) && IsDigit(w.digits[2])
    && w.lines != [] && forall k :: 0 <= k < |w.lines| ==> HasNoBreak(w.lines[k])
  }

  predicate HasNoBreak(l: Text) {
    forall k :: 0 <= k < |l| - 1 && l[k] == CR ==> l[k + 1] != NEWLINE
  }

  function LineText(digits: Text, separator: Code, l: Text): Text {
    digits + [separator] + l + [CR, NEWLINE]
  }

  /** Every line but the last has `-` behind the code. */
  function ReplyText(digits: Text, ls: seq<Text>): Text {
    if ls == [] then []
    else if |ls| == 1 then LineText(digits, SPACE, ls[0])
    else LineText(digits, DASH, ls[0]) + ReplyText(digits, ls[1..])
  }

  function JoinTexts(ls: seq<Text>): Text {
    if ls == [] then [] else if |ls| == 1 then ls[0] else ls[0] + [NEWLINE] + JoinTexts(ls[1..])
  }

  function Said(w: Written): Reply
    requires IsWritten(w)
  {
    Reply((w.digits[0] - 0x30) * 100 + (w.digits[1] - 0x30) * 10 + (w.digits[2] - 0x30), JoinTexts(w.lines))
  }

  lemma {:induction false} BreakIs(s: Text, i: nat, e: nat)
    requires i <= e && e + 2 <= |s| && s[e] == CR && s[e + 1] == NEWLINE
    requires forall k :: i <= k < e && s[k] == CR ==> s[k + 1] != NEWLINE
    ensures FindBreak(s, i) == Some(e)
    decreases e - i
  {
    if i < e {
      BreakIs(s, i + 1, e);
    }
  }

  /** The line that stands at `i` is found, and what follows it. */
  lemma LineStands(s: Text, i: nat, w: Written, separator: Code, l: Text, rest: Text)
    requires i <= |s| && s[i..] == LineText(w.digits, separator, l) + rest
    requires IsWritten(w) && HasNoBreak(l) && (separator == SPACE || separator == DASH)
    ensures var e := i + 4 + |l|;
            && e + 2 <= |s| && FindBreak(s, i) == Some(e) && s[e + 2..] == rest
            && IsReplyLine(s[i..e]) && s[i..e][3] == separator && s[i..e][4..] == l && CodeOf(s[i..e]) == Said(w).code
  {
    hide FindBreak, IsReplyLine, CodeOf, Said;
    var b := w.digits + [separator] + l;
    LineParts(w, separator, l);
    assert s[i..] == b + [CR, NEWLINE] + rest;
    BreakBehind(s, i, b, rest);
    assert s[i..][|b| + 2..] == rest;
  }

  /** The parts of a line without its break, which holds none. */
  lemma LineParts(w: Written, separator: Code, l: Text)
    requires IsWritten(w) && HasNoBreak(l) && (separator == SPACE || separator == DASH)
    ensures var b := w.digits + [separator] + l;
            && |b| == 4 + |l| && HasNoBreak(b) && IsReplyLine(b) && b[3] == separator && b[4..] == l
            && CodeOf(b) == Said(w).code
  {
    var b := w.digits + [separator] + l;
    forall k | 0 <= k < |b| - 1 && b[k] == CR ensures b[k + 1] != NEWLINE {
      assert k >= 4;
      assert b[k] == l[k - 4] && b[k + 1] == l[k - 3];
    }
  }

  /** The first break behind a text that holds none. */
  lemma BreakBehind(s: Text, i: nat, b: Text, rest: Text)
    requires i <= |s| && s[i..] == b + [CR, NEWLINE] + rest && HasNoBreak(b)
    ensures i + |b| + 2 <= |s| && FindBreak(s, i) == Some(i + |b|) && s[i..i + |b|] == b
    ensures s[i + |b| + 2..] == s[i..][|b| + 2..]
  {
    hide FindBreak;
    var tail, e := b + [CR, NEWLINE] + rest, i + |b|;
    forall k | 0 <= k < |tail| ensures s[i + k] == tail[k] {
      assert s[i..][k] == s[i + k];
    }
    assert s[e] == tail[|b|] && s[e + 1] == tail[|b| + 1];
    forall k | i <= k < e && s[k] == CR ensures s[k + 1] != NEWLINE {
      assert s[k] == tail[k - i] && s[k + 1] == tail[k + 1 - i];
    }
    BreakIs(s, i, e);
    assert s[i..][..|b|] == tail[..|b|] == b;
  }

  /** Reading what the server wrote gives its code and its lines, and leaves what follows. */
  lemma {:induction false} ReadsWritten(s: Text, i: nat, text: Text, w: Written, ls: seq<Text>, rest: Text)
    requires IsWritten(w) && ls != [] && (forall k :: 0 <= k < |ls| ==> HasNoBreak(ls[k]))
    requires i <= |s| && s[i..] == ReplyText(w.digits, ls) + rest
    ensures ReadFrom(s, i, text) == Complete(Reply(Said(w).code, text + JoinTexts(ls)), rest)
    decreases |ls|
  {
    hide FindBreak, HasNoBreak, IsReplyLine, CodeOf, ReadFrom, IsWritten, LineText, Said, ReplyText, JoinTexts;
    var l, code := ls[0], Said(w).code;
    var e := i + 4 + |l|;
    ReadLine(s, i, text);
    if |ls| == 1 {
      OneLine(w.digits, ls);
      LineStands(s, i, w, SPACE, l, rest);
    } else {
      var more := ReplyText(w.digits, ls[1..]) + rest;
      MoreLines(w.digits, ls, rest, text);
      LineStands(s, i, w, DASH, l, more);
      ReadsWritten(s, e + 2, text + l + [NEWLINE], w, ls[1..], rest);
    }
  }

  lemma OneLine(digits: Text, ls: seq<Text>)
    requires |ls| == 1
    ensures ReplyText(digits, ls) == LineText(digits, SPACE, ls[0]) && JoinTexts(ls) == ls[0]
  {
    hide LineText;
  }

  lemma MoreLines(digits: Text, ls: seq<Text>, rest: Text, text: Text)
    requires |ls| > 1
    ensures ReplyText(digits, ls) + rest == LineText(digits, DASH, ls[0]) + (ReplyText(digits, ls[1..]) + rest)
    ensures text + ls[0] + [NEWLINE] + JoinTexts(ls[1..]) == text + JoinTexts(ls)
  {
    hide LineText;
  }

  lemma ReplyRoundTrip(w: Written)
    requires IsWritten(w)
    ensures ReadReply(ReplyText(w.digits, w.lines)) == Complete(Said(w), [])
  {
    hide ReadFrom, HasNoBreak, ReplyText, JoinTexts;
    var s := ReplyText(w.digits, w.lines);
    assert s[0..] == s + [];
    ReadsWritten(s, 0, [], w, w.lines, []);
    assert [] + JoinTexts(w.lines) == JoinTexts(w.lines);
  }

  /** In lock-step, the reads get the codes and texts that the server wrote, in whatever chunks they arrive. */
  lemma {:induction false} WrittenArrives(s: State, written: seq<Written>, exchanges: seq<seq<Text>>)
    requires s.buffer == [] && s.failure.None? && |exchanges| == |written|
    requires forall k :: 0 <= k < |written| ==>
               && IsWritten(written[k]) && exchanges[k] != []
               && Concat(exchanges[k]) == ReplyText(written[k].digits, written[k].lines)
    ensures var got := Conversation(s, exchanges);
            && |got| == |written|
            && forall k :: 0 <= k < |written| ==> got[k] == Some(Resolved(Said(written[k])))
  {
    hide ReadFrom, ReplyText, IsWritten, Conversation;
    forall k | 0 <= k < |written|
      ensures IsExchange(exchanges[k]) && ReadReply(Concat(exchanges[k])) == Complete(Said(written[k]), [])
    {
      ReplyRoundTrip(written[k]);
    }
    LockStep(s, exchanges);
    BatchIs(exchanges);
  }

  lemma {:induction false} BatchIs(exchanges: seq<seq<Text>>)
    ensures |Batch(exchanges)| == |exchanges|
    ensures forall k :: 0 <= k < |exchanges| ==>
              Batch(exchanges)[k] ==
              match ReadReply(Concat(exchanges[k])) case Complete(r, _) => Some(Resolved(r)) case _ => None
  {
    hide ReadFrom;
    if exchanges != [] {
      BatchIs(exchanges[1..]);
    }
  }

  // ---------------------------------------------------------------------------
  // Whatever arrives
  // ---------------------------------------------------------------------------

  /** A line with its code. */
  datatype Coded = Coded(digits: Text, text: Text)

  predicate IsCoded(l: Coded) {
    && |l.digits| == 3 && (forall k :: 0 <= k < 3 ==> 0x30 <= l.digits[k] <= 0x39) && HasNoBreak(l.text)
  }

  /** Lines that say that more follow; their codes may differ. */
  function Continued(ls: seq<Coded>): Text {
    if ls == [] then [] else LineText(ls[0].digits, DASH, ls[0].text) + Continued(ls[1..])
  }

  function TextsOf(ls: seq<Coded>): Text {
    if ls == [] then [] else ls[0].text + [NEWLINE] + TextsOf(ls[1..])
  }

  /** The number that the digits write. */
  function NumberOf(ds: Text): nat
    requires |ds| == 3 && forall k :: 0 <= k < 3 ==> 0x30 <= ds[k] <= 0x39
  {
    100 * (ds[0] - 48) + 10 * (ds[1] - 48) + (ds[2] - 48)
  }

  lemma CodedIsWritten(l: Coded)
    requires IsCoded(l)
    ensures IsWritten(Written(l.digits, [l.text])) && Said(Written(l.digits, [l.text])).code == NumberOf(l.digits)
  {
    hide HasNoBreak;
  }

  lemma {:induction false} ReadsContinued(s: Text, i: nat, text: Text, ls: seq<Coded>, rest: Text)
    requires i <= |s| && s[i..] == Continued(ls) + rest && forall k :: 0 <= k < |ls| ==> IsCoded(ls[k])
    ensures |rest| <= |s| && s[|s| - |rest|..] == rest
    ensures ReadFrom(s, i, text) == ReadFrom(s, |s| - |rest|, text + TextsOf(ls))
    decreases |ls|
  {
    hide ReadFrom, FindBreak, HasNoBreak, IsCoded, IsReplyLine, CodeOf, LineText, IsWritten;
    if ls == [] {
      assert s[i..] == rest && text + [] == text;
    } else {
      var l, more := ls[0], Continued(ls[1..]) + rest;
      assert s[i..] == LineText(l.digits, DASH, l.text) + more;
      CodedIsWritten(l);
      CodedHasNoBreak(l);
      LineStands(s, i, Written(l.digits, [l.text]), DASH, l.text, more);
      ReadLine(s, i, text);
      var e := i + 4 + |l.text|;
      ReadsContinued(s, e + 2, text + l.text + [NEWLINE], ls[1..], rest);
      assert text + l.text + [NEWLINE] + TextsOf(ls[1..]) == text + TextsOf(ls);
    }
  }

  lemma CodedHasNoBreak(l: Coded)
    requires IsCoded(l)
    ensures HasNoBreak(l.text)
  {
  }

  /** A line starts as a reply's line must: three digits, and a space or a dash. */
  predicate StartsReply(b: Text) {
    |b| > 3 && (forall k :: 0 <= k < 3 ==> 0x30 <= b[k] <= 0x39) && (b[3] == 0x20 || b[3] == 0x2D)
  }

  /**
   * What is read of any text: behind lines that say that more follow, a line that does not gives the
   * reply, a line of another form is bad, and without a further break the reply is incomplete.
   */
  lemma ReadingExactly(ls: seq<Coded>, last: Coded, b: Text, rest: Text)
    requires (forall k :: 0 <= k < |ls| ==> IsCoded(ls[k])) && IsCoded(last) && HasNoBreak(b)
    ensures ReadReply(Continued(ls) + LineText(last.digits, SPACE, last.text) + rest) ==
            Complete(Reply(NumberOf(last.digits), TextsOf(ls) + last.text), rest)
    ensures !StartsReply(b) ==>
              ReadReply(Continued(ls) + (b + [CR, NEWLINE] + rest)) == Bad(b)
    ensures ReadReply(Continued(ls) + b) == Incomplete
  {
    hide ReadFrom, FindBreak, IsCoded, HasNoBreak, LineText, StartsReply;
    EndsReply(ls, last, rest);
    if !StartsReply(b) {
      EndsBadly(ls, b, rest);
    }
    StaysOpen(ls, b);
  }

  /** Behind lines that say that more follow, the reading goes on. */
  lemma GoesOn(ls: seq<Coded>, tail: Text)
    requires forall k :: 0 <= k < |ls| ==> IsCoded(ls[k])
    ensures var s, i := Continued(ls) + tail, |Continued(ls)|;
            s[i..] == tail && ReadReply(s) == ReadFrom(s, i, TextsOf(ls))
  {
    hide ReadFrom, IsCoded, Continued, TextsOf;
    var s := Continued(ls) + tail;
    assert s[0..] == s;
    ReadsContinued(s, 0, [], ls, tail);
    assert [] + TextsOf(ls) == TextsOf(ls);
  }

  lemma EndsReply(ls: seq<Coded>, last: Coded, rest: Text)
    requires (forall k :: 0 <= k < |ls| ==> IsCoded(ls[k])) && IsCoded(last)
    ensures ReadReply(Continued(ls) + LineText(last.digits, SPACE, last.text) + rest) ==
            Complete(Reply(NumberOf(last.digits), TextsOf(ls) + last.text), rest)
  {
    hide ReadFrom, FindBreak, IsCoded, HasNoBreak, LineText, IsReplyLine, CodeOf, IsWritten, ReadReply, Continued, TextsOf;
    var line, i := LineText(last.digits, SPACE, last.text), |Continued(ls)|;
    var s := Continued(ls) + (line + rest);
    assert Continued(ls) + line + rest == s;
    GoesOn(ls, line + rest);
    CodedIsWritten(last);
    CodedHasNoBreak(last);
    LineStands(s, i, Written(last.digits, [last.text]), SPACE, last.text, rest);
    ReadLine(s, i, TextsOf(ls));
  }

  lemma EndsBadly(ls: seq<Coded>, b: Text, rest: Text)
    requires (forall k :: 0 <= k < |ls| ==> IsCoded(ls[k])) && HasNoBreak(b) && !StartsReply(b)
    ensures ReadReply(Continued(ls) + (b + [CR, NEWLINE] + rest)) == Bad(b)
  {
    hide ReadFrom, FindBreak, IsCoded, HasNoBreak, ReadReply, Continued, TextsOf, CodeOf, IsReplyLine, StartsReply;
    var tail, i := b + [CR, NEWLINE] + rest, |Continued(ls)|;
    var s := Continued(ls) + tail;
    GoesOn(ls, tail);
    BreakBehind(s, i, b, rest);
    NoReplyLine(b);
    ReadLine(s, i, TextsOf(ls));
  }

  lemma NoReplyLine(b: Text)
    requires !StartsReply(b)
    ensures !IsReplyLine(b)
  {
  }

  lemma {:induction false} NoBreakFound(s: Text, i: nat)
    requires i <= |s| && HasNoBreak(s[i..])
    ensures FindBreak(s, i) == None
    decreases |s| - i
  {
    if i + 2 <= |s| {
      var t, u := s[i..], s[i + 1..];
      assert t[0] == s[i] && t[1] == s[i + 1];
      forall k | 0 <= k < |u| - 1 && u[k] == CR ensures u[k + 1] != NEWLINE {
        assert u[k] == t[k + 1] && u[k + 1] == t[k + 2];
      }
      NoBreakFound(s, i + 1);
    }
  }

  lemma StaysOpen(ls: seq<Coded>, b: Text)
    requires (forall k :: 0 <= k < |ls| ==> IsCoded(ls[k])) && HasNoBreak(b)
    ensures ReadReply(Continued(ls) + b) == Incomplete
  {
    hide ReadFrom, FindBreak, IsCoded, HasNoBreak, ReadReply, Continued, TextsOf;
    var s, i := Continued(ls) + b, |Continued(ls)|;
    GoesOn(ls, b);
    NoBreakFound(s, i);
    ReadLine(s, i, TextsOf(ls));
  }

  /**
   * What a chunk does to the probe: a complete reply answers the read that waits and leaves what
   * follows it; a bad line is the failure unless there has been one, and rejects the read.
   */
  lemma DataExactly(s: State, chunk: Text)
    ensures var t := AfterData(s, chunk);
            match ReadReply(s.buffer + chunk)
            case Incomplete => t == State(s.buffer + chunk, s.waiting, s.failure, s.answer)
            case Complete(reply, rest) =>
              t == State(rest, false, s.failure, if s.waiting then Some(Resolved(reply)) else s.answer)
            case Bad(line) =>
              t == State(s.buffer + chunk, false, Some(if s.failure.Some? then s.failure.value else Unparseable(line)),
                         if s.waiting then Some(Rejected(Unparseable(line))) else s.answer)
  {
  }

  /** Once there has been a failure, every read gets the first one, whatever arrives. */
  lemma {:induction false} FirstFailureStays(s: State, chunks: seq<Text>)
    requires s.failure.Some? && !s.waiting
    ensures AfterRead(AfterAll(s, chunks)).answer == Some(Rejected(s.failure.value))
    decreases |chunks|
  {
    hide ReadFrom;
    if chunks != [] {
      FirstFailureStays(AfterData(s, chunks[0]), chunks[1..]);
    }
  }

  /**
   * A line that is no reply's, behind lines that say that more follow, rejects the read that waits and
   * is the failure from then on, in whatever chunks it arrives.
   */
  lemma BadLineRejects(s: State, chunks: seq<Text>, ls: seq<Coded>, b: Text, rest: Text)
    requires s.waiting && s.failure.None? && ReadReply(s.buffer).Incomplete? && chunks != []
    requires (forall k :: 0 <= k < |ls| ==> IsCoded(ls[k])) && HasNoBreak(b) && !StartsReply(b)
    requires s.buffer + Concat(chunks) == Continued(ls) + (b + [CR, NEWLINE] + rest)
    ensures var t := AfterAll(s, chunks);
            t.answer == Some(Rejected(Unparseable(b))) && t.failure == Some(Unparseable(b)) && !t.waiting
  {
    hide ReadReply, Concat, AfterAll, AfterData, IsCoded, HasNoBreak, StartsReply, Continued;
    EndsBadly(ls, b, rest);
    BadIsSettled(ReadReply(s.buffer + Concat(chunks)));
    ChunkingDoesNotMatter(s, chunks);
    DataExactly(s, Concat(chunks));
  }

  lemma BadIsSettled(r: Reading)
    requires r.Bad?
    ensures Settled(r)
  {
  }
}
