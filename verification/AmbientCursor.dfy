// The cursor that decides which channel messages are given to the ambient judge as new.

module AmbientCursor {
  import opened Results

  /**
   * Message timestamps are strings that the program compares with `<`; here they are numbers, with
   * zero for the empty string, which is the least.
   */
  type Stamp = nat

  datatype Mode = Ignore | User | Rollup | Action

  datatype BotPolicy = BotPolicy(mode: Mode, rollupHours: Option<nat>)

  /** `author` is the lower-case author name, empty if there is none. */
  datatype Message = Message(
    ts: Stamp, self: bool, handled: bool, bot: bool, author: string, mentionsSelf: bool, content: string)

  datatype Cursor = Cursor(lastJudgedTs: Stamp, lastJudgedAt: nat)

  type Ledger = map<string, BotPolicy>

  const DEFAULT_ROLLUP_HOURS: nat := 24
  const HOUR: nat := 3_600_000

  /**
   * What one call reads besides the cursor: the cached messages, the bots' policies, whether ambient
   * is off, the clock, and whether the cursor's write succeeds.
   */
  datatype Call = Call(
    all: seq<Message>, ledger: Ledger, scheduled: bool, off: bool, now: nat, later: nat, writes: bool)

  // ---------------------------------------------------------------------------
  // Specification
  // ---------------------------------------------------------------------------

  function After(cursor: Option<Cursor>): Stamp {
    match cursor case Some(c) => c.lastJudgedTs case None => 0
  }

  function ModeOf(m: Message, ledger: Ledger): Option<Mode> {
    if m.bot && m.author != "" && m.author in ledger then Some(ledger[m.author].mode) else None
  }

  /** The messages of others behind the cursor; an empty cursor lies before all of them. */
  function RawDelta(all: seq<Message>, after: Stamp): seq<Message> {
    if all == [] then []
    else (if (after == 0 || all[0].ts > after) && !all[0].self then [all[0]] else []) + RawDelta(all[1..], after)
  }

  function AsUser(m: Message, ledger: Ledger): Message {
    if ModeOf(m, ledger) == Some(User) then m.(bot := false) else m
  }

  /** The new messages: neither handled nor of an ignored bot. */
  function Delta(raw: seq<Message>, ledger: Ledger): seq<Message> {
    if raw == [] then []
    else (if !raw[0].handled && ModeOf(raw[0], ledger) != Some(Ignore) then [AsUser(raw[0], ledger)] else [])
         + Delta(raw[1..], ledger)
  }

  function Latest(raw: seq<Message>, from: Stamp): (r: Stamp)
    ensures r >= from
    ensures forall k :: 0 <= k < |raw| ==> raw[k].ts <= r
    ensures r == from || exists k :: 0 <= k < |raw| && raw[k].ts == r
  {
    if raw == [] then from
    else
      var r := Latest(raw[1..], if raw[0].ts > from then raw[0].ts else from);
      assert forall k :: 1 <= k < |raw| ==> raw[k] == raw[1..][k - 1];
      assert r == from || r == raw[0].ts || exists k :: 0 <= k < |raw[1..]| && raw[1..][k].ts == r;
      r
  }

  function NotMentioned(delta: seq<Message>): seq<Message> {
    if delta == [] then [] else (if delta[0].mentionsSelf then [] else [delta[0]]) + NotMentioned(delta[1..])
  }

  function Advanced(cursor: Option<Cursor>, raw: seq<Message>, c: Call): Option<Cursor> {
    var latest := Latest(raw, After(cursor));
    if raw != [] && latest > 0 && c.writes then Some(Cursor(latest, c.later)) else cursor
  }

  function RollupHours(m: Message, ledger: Ledger): nat {
    if m.author in ledger && ledger[m.author].rollupHours.Some? then ledger[m.author].rollupHours.value
    else DEFAULT_ROLLUP_HOURS
  }

  /** A batch of rollup bots' messages that is held back until their hours have passed. */
  predicate IsHeld(cursor: Option<Cursor>, delta: seq<Message>, c: Call) {
    && !c.scheduled && delta != []
    && (forall k :: 0 <= k < |delta| ==> ModeOf(delta[k], c.ledger) == Some(Rollup))
    && cursor.Some?
    && forall k :: 0 <= k < |delta| ==> c.now < cursor.value.lastJudgedAt + RollupHours(delta[k], c.ledger) * HOUR
  }

  /** The cursor after a call, and the messages that the judge is given as new in it. */
  function Judge(cursor: Option<Cursor>, c: Call): (Option<Cursor>, seq<Message>) {
    var raw := RawDelta(c.all, After(cursor));
    var delta := Delta(raw, c.ledger);
    if delta == [] && !c.scheduled then (Advanced(cursor, raw, c), [])
    else if IsHeld(cursor, delta, c) then (cursor, [])
    else if c.off then (Advanced(cursor, raw, c), [])
    else (Advanced(cursor, raw, c), NotMentioned(delta))
  }

  // ---------------------------------------------------------------------------
  // The call
  // ---------------------------------------------------------------------------

  class Container {
    var cursor: Option<Cursor>

    constructor ()
      ensures cursor == None
    {
      cursor := None;
    }

    method AdvanceCursor(raw: seq<Message>, c: Call)
      modifies this
      ensures cursor == Advanced(old(cursor), raw, c)
    {
      var latest := Latest(raw, After(cursor));
      if raw != [] && latest > 0 && c.writes {
        cursor := Some(Cursor(latest, c.later));
      }
    }

    /** One call; the result is the batch that the judge is given as new, if it is asked. */
    method JudgeAmbientContainer(c: Call) returns (given: seq<Message>)
      modifies this
      ensures (cursor, given) == Judge(old(cursor), c)
    {
      var rawDelta := RawDelta(c.all, After(cursor));
      var delta := Delta(rawDelta, c.ledger);
      if delta == [] && !c.scheduled {
        AdvanceCursor(rawDelta, c);
        return [];
      }
      if !c.scheduled && delta != [] && forall k :: 0 <= k < |delta| ==> ModeOf(delta[k], c.ledger) == Some(Rollup) {
        var held := cursor.Some? && forall k :: 0 <= k < |delta| ==>
                      c.now < cursor.value.lastJudgedAt + RollupHours(delta[k], c.ledger) * HOUR;
        if held {
          return [];
        }
      }
      if c.off {
        AdvanceCursor(rawDelta, c);
        return [];
      }
      given := NotMentioned(delta);
      AdvanceCursor(rawDelta, c);
    }
  }

  // ---------------------------------------------------------------------------
  // Single calls
  // ---------------------------------------------------------------------------

  /** A stamp that is behind the cursor. */
  predicate IsNew(ts: Stamp, after: Stamp) {
    after == 0 || ts > after
  }

  lemma {:induction false} RawDeltaIs(all: seq<Message>, after: Stamp)
    ensures forall m :: m in RawDelta(all, after) <==> m in all && IsNew(m.ts, after) && !m.self
  {
    if all != [] {
      RawDeltaIs(all[1..], after);
      assert all == [all[0]] + all[1..];
    }
  }

  lemma {:induction false} DeltaIs(raw: seq<Message>, ledger: Ledger)
    ensures forall m :: m in Delta(raw, ledger) <==>
              exists r :: r in raw && m == AsUser(r, ledger) && !r.handled && ModeOf(r, ledger) != Some(Ignore)
  {
    if raw != [] {
      DeltaIs(raw[1..], ledger);
      assert raw == [raw[0]] + raw[1..];
      assert raw[0] in raw;
    }
  }

  lemma {:induction false} GivenFrom(delta: seq<Message>)
    ensures forall m :: m in NotMentioned(delta) <==> m in delta && !m.mentionsSelf
  {
    if delta != [] {
      GivenFrom(delta[1..]);
      assert delta == [delta[0]] + delta[1..];
    }
  }

  // ---------------------------------------------------------------------------
  // What is read, held and given, said of the messages themselves
  // ---------------------------------------------------------------------------

  /** The message is a bot's for which the channel has a policy of this mode. */
  predicate HasMode(m: Message, ledger: Ledger, mode: Mode) {
    m.bot && m.author != "" && m.author in ledger && ledger[m.author].mode == mode
  }

  /** A bot that counts as a user is shown as one. */
  function Shown(m: Message, ledger: Ledger): Message {
    if HasMode(m, ledger, User) then Message(m.ts, m.self, m.handled, false, m.author, m.mentionsSelf, m.content) else m
  }

  predicate IsRead(r: Message, cursor: Option<Cursor>) {
    !r.self && (cursor.None? || cursor.value.lastJudgedTs == 0 || r.ts > cursor.value.lastJudgedTs)
  }

  /** A message that counts as new: read, not handled, and not of an ignored bot. */
  predicate IsFresh(r: Message, cursor: Option<Cursor>, c: Call) {
    IsRead(r, cursor) && !r.handled && !HasMode(r, c.ledger, Ignore)
  }

  /** The message is a rollup bot's whose hours have not passed since the last judgment. */
  predicate MayWait(r: Message, lastAt: nat, c: Call) {
    && HasMode(r, c.ledger, Rollup)
    && var hours := c.ledger[r.author].rollupHours;
    c.now < lastAt + (if hours.Some? then hours.value else 24) * 3_600_000
  }

  /** There are new messages, and all of them may wait. */
  predicate HoldsBack(cursor: Option<Cursor>, c: Call) {
    && !c.scheduled && cursor.Some? && (exists r :: r in c.all && IsFresh(r, cursor, c))
    && forall r :: r in c.all && IsFresh(r, cursor, c) ==> MayWait(r, cursor.value.lastJudgedAt, c)
  }

  lemma ModeIs(m: Message, ledger: Ledger, mode: Mode)
    ensures ModeOf(m, ledger) == Some(mode) <==> HasMode(m, ledger, mode)
    ensures AsUser(m, ledger) == Shown(m, ledger)
    ensures ModeOf(AsUser(m, ledger), ledger) == Some(Rollup) <==> HasMode(m, ledger, Rollup)
  {
  }

  /** The messages that the code calls new are the fresh ones as they are shown. */
  lemma DeltaHolds(cursor: Option<Cursor>, c: Call)
    ensures var delta := Delta(RawDelta(c.all, After(cursor)), c.ledger);
            && (forall r :: r in c.all && IsFresh(r, cursor, c) ==> AsUser(r, c.ledger) in delta)
            && (forall m :: m in delta ==> exists r :: r in c.all && IsFresh(r, cursor, c) && m == AsUser(r, c.ledger))
  {
    hide ModeOf, AsUser, HasMode;
    var raw := RawDelta(c.all, After(cursor));
    RawDeltaIs(c.all, After(cursor));
    DeltaIs(raw, c.ledger);
    forall r | r in c.all ensures r in raw && !r.handled && ModeOf(r, c.ledger) != Some(Ignore) <==> IsFresh(r, cursor, c) {
      ModeIs(r, c.ledger, Ignore);
    }
  }

  lemma WaitsIs(r: Message, lastAt: nat, c: Call)
    ensures var d := AsUser(r, c.ledger);
            (ModeOf(d, c.ledger) == Some(Rollup) && c.now < lastAt + RollupHours(d, c.ledger) * HOUR) <==> MayWait(r, lastAt, c)
  {
  }

  /** The batch is held exactly if there are new messages and all of them may wait. */
  lemma HeldExactly(cursor: Option<Cursor>, c: Call)
    ensures IsHeld(cursor, Delta(RawDelta(c.all, After(cursor)), c.ledger), c) <==> HoldsBack(cursor, c)
  {
    hide ModeOf, AsUser, HasMode, RawDelta, Delta, RollupHours, MayWait, IsFresh;
    var delta := Delta(RawDelta(c.all, After(cursor)), c.ledger);
    DeltaHolds(cursor, c);
    if cursor.Some? {
      var at := cursor.value.lastJudgedAt;
      forall r | r in c.all && IsFresh(r, cursor, c)
        ensures var d := AsUser(r, c.ledger);
                (ModeOf(d, c.ledger) == Some(Rollup) && c.now < at + RollupHours(d, c.ledger) * HOUR) <==> MayWait(r, at, c)
      {
        WaitsIs(r, at, c);
      }
      if delta != [] {
        assert delta[0] in delta;
      }
      HeldIfAllWait(cursor, delta, c);
    }
  }

  lemma HeldIfAllWait(cursor: Option<Cursor>, delta: seq<Message>, c: Call)
    requires cursor.Some?
    ensures IsHeld(cursor, delta, c) <==>
            && !c.scheduled && delta != []
            && forall m :: m in delta ==>
                 ModeOf(m, c.ledger) == Some(Rollup) && c.now < cursor.value.lastJudgedAt + RollupHours(m, c.ledger) * HOUR
  {
    hide ModeOf, RollupHours;
    forall k | 0 <= k < |delta| ensures delta[k] in delta {
    }
  }

  /** A message for the judge: new, and no mention. */
  predicate IsForJudge(r: Message, cursor: Option<Cursor>, c: Call) {
    IsFresh(r, cursor, c) && !r.mentionsSelf
  }

  function ForJudgeBefore(cursor: Option<Cursor>, c: Call, k: nat): nat
    requires k <= |c.all|
  {
    if k == 0 then 0 else ForJudgeBefore(cursor, c, k - 1) + if IsForJudge(c.all[k - 1], cursor, c) then 1 else 0
  }

  lemma {:induction false} ForJudgeBehindFirst(cursor: Option<Cursor>, c: Call, k: nat)
    requires k < |c.all|
    ensures ForJudgeBefore(cursor, c, k + 1) ==
            (if IsForJudge(c.all[0], cursor, c) then 1 else 0) + ForJudgeBefore(cursor, c.(all := c.all[1..]), k)
  {
    hide IsFresh;
    ForJudgeIsLocal(c.all[k], cursor, c);
    if k > 0 {
      ForJudgeBehindFirst(cursor, c, k - 1);
    } else {
      assert ForJudgeBefore(cursor, c, 0) == 0;
    }
  }

  lemma ForJudgeIsLocal(r: Message, cursor: Option<Cursor>, c: Call)
    requires c.all != []
    ensures IsForJudge(r, cursor, c) == IsForJudge(r, cursor, c.(all := c.all[1..]))
  {
  }

  function Batch(cursor: Option<Cursor>, c: Call): seq<Message> {
    NotMentioned(Delta(RawDelta(c.all, After(cursor)), c.ledger))
  }

  lemma BatchStep(cursor: Option<Cursor>, c: Call)
    requires c.all != []
    ensures var rest := Batch(cursor, c.(all := c.all[1..]));
            Batch(cursor, c) == if IsForJudge(c.all[0], cursor, c) then [Shown(c.all[0], c.ledger)] + rest else rest
  {
    hide ModeOf, AsUser, HasMode, Shown;
    var r, raw := c.all[0], RawDelta(c.all[1..], After(cursor));
    ModeIs(r, c.ledger, Ignore);
    MentionStays(r, c.ledger);
    assert ([r] + raw)[1..] == raw;
    assert RawDelta(c.all, After(cursor)) == if IsRead(r, cursor) then [r] + raw else raw;
    var delta := Delta(raw, c.ledger);
    var m := AsUser(r, c.ledger);
    assert ([m] + delta)[1..] == delta;
    assert Delta([r] + raw, c.ledger) == if !r.handled && !HasMode(r, c.ledger, Ignore) then [m] + delta else delta;
    assert NotMentioned([m] + delta) == if m.mentionsSelf then NotMentioned(delta) else [m] + NotMentioned(delta);
  }

  lemma MentionStays(r: Message, ledger: Ledger)
    ensures AsUser(r, ledger).mentionsSelf == r.mentionsSelf && AsUser(r, ledger) == Shown(r, ledger)
  {
  }

  /** The message at place `a` of the batch is the one with `a` others for the judge in front of it. */
  lemma {:induction false} BatchAt(cursor: Option<Cursor>, c: Call, a: nat) returns (k: nat)
    requires a < |Batch(cursor, c)|
    ensures k < |c.all| && IsForJudge(c.all[k], cursor, c) && ForJudgeBefore(cursor, c, k) == a
    ensures Batch(cursor, c)[a] == Shown(c.all[k], c.ledger)
    decreases |c.all|
  {
    hide Batch, IsForJudge, Shown;
    if c.all == [] {
      EmptyBatch(cursor, c);
    } else {
      BatchStep(cursor, c);
      var first := IsForJudge(c.all[0], cursor, c);
      if first && a == 0 {
        k := 0;
      } else {
        var rest := c.(all := c.all[1..]);
        k := BatchAt(cursor, rest, if first then a - 1 else a);
        ForJudgeIsLocal(c.all[k + 1], cursor, c);
        ForJudgeBehindFirst(cursor, c, k);
        k := k + 1;
      }
    }
  }

  lemma EmptyBatch(cursor: Option<Cursor>, c: Call)
    requires c.all == []
    ensures Batch(cursor, c) == []
  {
  }

  lemma {:induction false} BatchCount(cursor: Option<Cursor>, c: Call)
    ensures |Batch(cursor, c)| == ForJudgeBefore(cursor, c, |c.all|)
    decreases |c.all|
  {
    hide Batch, IsForJudge, Shown;
    if c.all == [] {
      EmptyBatch(cursor, c);
    } else {
      BatchStep(cursor, c);
      BatchCount(cursor, c.(all := c.all[1..]));
      ForJudgeBehindFirst(cursor, c, |c.all| - 1);
    }
  }

  /**
   * Unless the batch is held or ambient is off, the judge is given exactly the messages for it, in the
   * order in which they are read.
   */
  lemma GivenInOrder(cursor: Option<Cursor>, c: Call, a: nat) returns (k: nat)
    ensures |Judge(cursor, c).1| == if c.off || HoldsBack(cursor, c) then 0 else ForJudgeBefore(cursor, c, |c.all|)
    ensures a < |Judge(cursor, c).1| ==>
              && k < |c.all| && IsForJudge(c.all[k], cursor, c) && ForJudgeBefore(cursor, c, k) == a
              && Judge(cursor, c).1[a] == Shown(c.all[k], c.ledger)
  {
    hide ForJudgeBefore, IsForJudge, Shown, HoldsBack, IsHeld, Advanced, RawDelta, Delta;
    HeldExactly(cursor, c);
    BatchCount(cursor, c);
    k := 0;
    if a < |Judge(cursor, c).1| {
      k := BatchAt(cursor, c, a);
    }
  }

  /** What the judge is given are exactly the messages for it, as they are shown. */
  lemma GivenExactly(cursor: Option<Cursor>, c: Call, m: Message)
    ensures m in Judge(cursor, c).1 <==>
            && !c.off && !HoldsBack(cursor, c)
            && exists r :: r in c.all && m == Shown(r, c.ledger) && IsForJudge(r, cursor, c)
  {
    hide ModeOf, AsUser, HasMode, Shown, IsHeld, HoldsBack, RawDelta, Delta, IsFresh;
    var delta := Delta(RawDelta(c.all, After(cursor)), c.ledger);
    HeldExactly(cursor, c);
    DeltaHolds(cursor, c);
    GivenFrom(delta);
    forall r | r in c.all
      ensures AsUser(r, c.ledger) == Shown(r, c.ledger) && AsUser(r, c.ledger).mentionsSelf == r.mentionsSelf
    {
      MentionStays(r, c.ledger);
    }
  }

  /** A call moves the cursor to the latest stamp it reads of others, unless it holds the batch or cannot write. */
  lemma CursorExactly(cursor: Option<Cursor>, c: Call)
    ensures var t := Judge(cursor, c).0;
            if !HoldsBack(cursor, c) && c.writes && exists r :: r in c.all && IsRead(r, cursor) && r.ts > 0 then
              && t.Some? && t.value.lastJudgedAt == c.later
              && (exists r :: r in c.all && IsRead(r, cursor) && r.ts == t.value.lastJudgedTs)
              && (forall r :: r in c.all && IsRead(r, cursor) ==> r.ts <= t.value.lastJudgedTs)
            else t == cursor
  {
    hide IsHeld, HoldsBack, Delta, RawDelta, Advanced, IsRead;
    HeldExactly(cursor, c);
    AdvancedExactly(cursor, c);
    if HoldsBack(cursor, c) {
      HeldIsSome(cursor, Delta(RawDelta(c.all, After(cursor)), c.ledger), c);
    }
  }

  lemma HeldIsSome(cursor: Option<Cursor>, delta: seq<Message>, c: Call)
    requires IsHeld(cursor, delta, c)
    ensures delta != [] && !c.scheduled
  {
  }

  lemma AdvancedExactly(cursor: Option<Cursor>, c: Call)
    ensures var t := Advanced(cursor, RawDelta(c.all, After(cursor)), c);
            if c.writes && exists r :: r in c.all && IsRead(r, cursor) && r.ts > 0 then
              && t.Some? && t.value.lastJudgedAt == c.later
              && (exists r :: r in c.all && IsRead(r, cursor) && r.ts == t.value.lastJudgedTs)
              && (forall r :: r in c.all && IsRead(r, cursor) ==> r.ts <= t.value.lastJudgedTs)
            else t == cursor
  {
    hide RawDelta;
    var raw := RawDelta(c.all, After(cursor));
    RawDeltaIs(c.all, After(cursor));
    forall r ensures r in raw <==> r in c.all && IsRead(r, cursor) {
    }
    LatestIs(raw, After(cursor));
    if raw != [] {
      assert raw[0] in raw;
    }
  }

  lemma LatestIs(raw: seq<Message>, from: Stamp)
    ensures Latest(raw, from) >= from && forall r :: r in raw ==> r.ts <= Latest(raw, from)
    ensures Latest(raw, from) == from || exists r :: r in raw && r.ts == Latest(raw, from)
  {
    hide Latest;
    if Latest(raw, from) != from {
      var k :| 0 <= k < |raw| && raw[k].ts == Latest(raw, from);
      assert raw[k] in raw;
    }
  }

  /** What the judge is given as new stands behind the old cursor and, once written, not behind the new one. */
  lemma GivenIsNew(cursor: Option<Cursor>, c: Call, m: Message)
    requires m in Judge(cursor, c).1
    ensures IsNew(m.ts, After(cursor)) && !m.self && !m.handled && !m.mentionsSelf
    ensures exists r :: r in c.all && m == AsUser(r, c.ledger)
    ensures c.writes ==> m.ts <= After(Judge(cursor, c).0) && (m.ts > 0 ==> Judge(cursor, c).0.Some?)
  {
    var raw := RawDelta(c.all, After(cursor));
    var delta := Delta(raw, c.ledger);
    RawDeltaIs(c.all, After(cursor));
    DeltaIs(raw, c.ledger);
    GivenFrom(delta);
    var r :| r in raw && m == AsUser(r, c.ledger);
    var k :| 0 <= k < |raw| && raw[k] == r;
  }

  /** The cursor never moves back. */
  lemma CursorAdvances(cursor: Option<Cursor>, c: Call)
    ensures After(Judge(cursor, c).0) >= After(cursor)
  {
  }

  /** A held rollup batch leaves the cursor alone, and all its messages behind it. */
  lemma HeldStaysNew(cursor: Option<Cursor>, c: Call, m: Message)
    requires HoldsBack(cursor, c)
    ensures Judge(cursor, c) == (cursor, [])
    ensures m in c.all && IsFresh(m, cursor, c) ==> IsNew(m.ts, After(Judge(cursor, c).0))
  {
    hide IsHeld, HoldsBack, RawDelta, Delta, Advanced;
    HeldExactly(cursor, c);
    DeltaHolds(cursor, c);
    HeldIsSome(cursor, Delta(RawDelta(c.all, After(cursor)), c.ledger), c);
  }

  /** A call that is not held leaves no message of others behind the cursor, unless its stamp is empty. */
  lemma NothingLeftBehind(cursor: Option<Cursor>, c: Call, m: Message)
    requires !HoldsBack(cursor, c) && c.writes
    requires m in c.all && !m.self && m.ts > 0
    ensures m.ts <= After(Judge(cursor, c).0) && !IsNew(m.ts, After(Judge(cursor, c).0))
  {
    hide HoldsBack, Delta, IsHeld;
    HeldExactly(cursor, c);
    var raw := RawDelta(c.all, After(cursor));
    RawDeltaIs(c.all, After(cursor));
    if m in raw {
      var k :| 0 <= k < |raw| && raw[k] == m;
    }
  }

  // ---------------------------------------------------------------------------
  // Sequences of calls
  // ---------------------------------------------------------------------------

  function CursorAfter(cursor: Option<Cursor>, calls: seq<Call>): Option<Cursor>
    decreases |calls|
  {
    if calls == [] then cursor else CursorAfter(Judge(cursor, calls[0]).0, calls[1..])
  }

  /** What the `k`-th of the calls gives to the judge. */
  function GivenIn(cursor: Option<Cursor>, calls: seq<Call>, k: nat): seq<Message>
    requires k < |calls|
  {
    Judge(CursorAfter(cursor, calls[..k]), calls[k]).1
  }

  lemma {:induction false} CursorNeverFalls(cursor: Option<Cursor>, calls: seq<Call>)
    ensures After(CursorAfter(cursor, calls)) >= After(cursor)
    decreases |calls|
  {
    hide Judge;
    if calls != [] {
      CursorAdvances(cursor, calls[0]);
      CursorNeverFalls(Judge(cursor, calls[0]).0, calls[1..]);
    }
  }

  lemma {:induction false} CursorSplits(cursor: Option<Cursor>, a: seq<Call>, b: seq<Call>)
    ensures CursorAfter(cursor, a + b) == CursorAfter(CursorAfter(cursor, a), b)
    decreases |a|
  {
    hide Judge;
    if a == [] {
      assert a + b == b;
    } else {
      assert (a + b)[1..] == a[1..] + b;
      CursorSplits(Judge(cursor, a[0]).0, a[1..], b);
    }
  }

  /** The cursor in front of a later call is at least the cursor behind an earlier one. */
  lemma CursorBetween(cursor: Option<Cursor>, calls: seq<Call>, i: nat, j: nat)
    requires i < j < |calls|
    ensures After(CursorAfter(cursor, calls[..j])) >= After(Judge(CursorAfter(cursor, calls[..i]), calls[i]).0)
    ensures After(CursorAfter(cursor, calls[..j])) >= After(CursorAfter(cursor, calls[..i]))
  {
    hide Judge;
    assert calls[..j] == calls[..i] + calls[i..j];
    CursorSplits(cursor, calls[..i], calls[i..j]);
    var here := CursorAfter(cursor, calls[..i]);
    assert calls[i..j][0] == calls[i];
    CursorNeverFalls(Judge(here, calls[i]).0, calls[i..j][1..]);
    CursorAdvances(here, calls[i]);
  }

  /**
   * Over any sequence of calls whose cursor writes succeed, no message of others with a stamp is
   * given to the judge as new twice.
   */
  lemma NeverJudgedTwice(cursor: Option<Cursor>, calls: seq<Call>, i: nat, j: nat, m: Message, n: Message)
    requires i < j < |calls| && calls[i].writes
    requires m in GivenIn(cursor, calls, i) && n in GivenIn(cursor, calls, j) && m.ts > 0
    ensures n.ts > m.ts
  {
    hide Judge;
    GivenIsNew(CursorAfter(cursor, calls[..i]), calls[i], m);
    GivenIsNew(CursorAfter(cursor, calls[..j]), calls[j], n);
    CursorBetween(cursor, calls, i, j);
  }

  // ---------------------------------------------------------------------------
  // Empty stamps
  // ---------------------------------------------------------------------------

  /** A cursor that has been written holds a stamp. */
  predicate IsWritten(cursor: Option<Cursor>) {
    cursor.Some? ==> cursor.value.lastJudgedTs > 0
  }

  /** No message of others that the call reads has a stamp. */
  predicate NothingStamped(c: Call) {
    forall k :: 0 <= k < |c.all| && !c.all[k].self ==> c.all[k].ts == 0
  }

  lemma UnsetNow(cursor: Option<Cursor>, c: Call)
    requires IsWritten(cursor) && c.writes
    ensures IsWritten(Judge(cursor, c).0)
    ensures After(Judge(cursor, c).0) == 0 <==> After(cursor) == 0 && NothingStamped(c)
  {
    CursorAdvances(cursor, c);
    if After(cursor) == 0 {
      var raw := RawDelta(c.all, 0);
      RawDeltaIs(c.all, 0);
      forall k | 0 <= k < |raw| ensures raw[k] in c.all && !raw[k].self {
        assert raw[k] in raw;
      }
      forall k | 0 <= k < |c.all| && !c.all[k].self ensures c.all[k] in raw {
      }
    }
  }

  lemma {:induction false} UnsetAfter(cursor: Option<Cursor>, calls: seq<Call>)
    requires IsWritten(cursor) && forall k :: 0 <= k < |calls| ==> calls[k].writes
    ensures IsWritten(CursorAfter(cursor, calls))
    ensures After(CursorAfter(cursor, calls)) == 0 <==>
            After(cursor) == 0 && forall k :: 0 <= k < |calls| ==> NothingStamped(calls[k])
    decreases |calls|
  {
    hide Judge, NothingStamped;
    if calls != [] {
      UnsetNow(cursor, calls[0]);
      UnsetAfter(Judge(cursor, calls[0]).0, calls[1..]);
      assert calls == [calls[0]] + calls[1..];
    }
  }

  /**
   * From an unset cursor, and as long as its writes succeed, what one of the calls has given to the
   * judge is new again behind all of them if and only if none has read a stamp of others.
   */
  lemma NewAgainExactly(calls: seq<Call>, i: nat, m: Message)
    requires i < |calls| && (forall k :: 0 <= k < |calls| ==> calls[k].writes) && m in GivenIn(None, calls, i)
    ensures IsNew(m.ts, After(CursorAfter(None, calls))) <==> forall k :: 0 <= k < |calls| ==> NothingStamped(calls[k])
  {
    hide Judge, NothingStamped;
    var here := CursorAfter(None, calls[..i]);
    GivenIsNew(here, calls[i], m);
    UnsetAfter(None, calls);
    assert calls == calls[..i] + calls[i..];
    CursorSplits(None, calls[..i], calls[i..]);
    assert calls[i..][0] == calls[i];
    CursorNeverFalls(Judge(here, calls[i]).0, calls[i..][1..]);
  }

  /** The cache takes no message without a stamp, so nothing that was given is new again. */
  lemma StampedIsNeverNewAgain(calls: seq<Call>, i: nat, m: Message)
    requires i < |calls| && (forall k :: 0 <= k < |calls| ==> calls[k].writes) && m in GivenIn(None, calls, i)
    requires forall x :: x in calls[i].all ==> x.ts > 0
    ensures !IsNew(m.ts, After(CursorAfter(None, calls)))
  {
    hide Judge;
    NewAgainExactly(calls, i, m);
    GivenIsNew(CursorAfter(None, calls[..i]), calls[i], m);
    var r :| r in calls[i].all && m == AsUser(r, calls[i].ledger);
    var k :| 0 <= k < |calls[i].all| && calls[i].all[k] == r;
    assert calls[i].all[k].ts > 0;
  }
}
