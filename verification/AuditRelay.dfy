// The buffered audit relay: records keep arriving while a flush waits for its answer.

module AuditRelay {
  import opened Results

  const MAX_BATCH: nat := 500
  const MAX_BUFFER: nat := 5000

  /** An audit record; what it says does not matter here. */
  datatype Record = Record(content: nat)

  // ---------------------------------------------------------------------------
  // The sink as a value
  // ---------------------------------------------------------------------------

  /**
   * `batch` is the batch whose request is under way. `calls`, `acknowledged` and `reported` record
   * the history: all records given to the sink, those of answered requests, and the dropped ones
   * that a warning has counted.
   */
  datatype State = State(
    buffer: seq<Record>, batch: Option<seq<Record>>, dropped: nat,
    calls: seq<Record>, accepted: seq<Record>, acknowledged: seq<Record>, reported: nat)

  const START: State := State([], None, 0, [], [], [], 0)

  datatype Step = Call(r: Record) | Begin | End(ok: bool)

  function FirstBatch(buffer: seq<Record>): seq<Record> {
    if |buffer| <= MAX_BATCH then buffer else buffer[..MAX_BATCH]
  }

  function Next(s: State, step: Step): State {
    match step
    case Call(r) =>
      if |s.buffer| >= MAX_BUFFER then s.(dropped := s.dropped + 1, calls := s.calls + [r])
      else s.(buffer := s.buffer + [r], calls := s.calls + [r], accepted := s.accepted + [r])
    case Begin =>
      if s.batch.Some? || s.buffer == [] then s else s.(batch := Some(FirstBatch(s.buffer)))
    case End(ok) =>
      if s.batch.None? then s
      else if !ok then s.(batch := None)
      else
        var n := if |s.batch.value| <= |s.buffer| then |s.batch.value| else |s.buffer|;
        s.(batch := None, buffer := s.buffer[n..], acknowledged := s.acknowledged + s.batch.value,
           dropped := 0, reported := s.reported + s.dropped)
  }

  function Run(s: State, steps: seq<Step>): State
    decreases |steps|
  {
    if steps == [] then s else Run(Next(s, steps[0]), steps[1..])
  }

  // ---------------------------------------------------------------------------
  // The sink as it runs
  // ---------------------------------------------------------------------------

  class RelaySink {
    var buffer: seq<Record>
    var flushing: bool
    var dropped: nat
    ghost var history: State

    /** The fields are those of the history's last state. */
    ghost predicate Valid()
      reads this
    {
      && history.buffer == buffer && history.dropped == dropped && (history.batch.Some? <==> flushing)
      && (history.batch.Some? ==> |history.batch.value| <= |buffer|)
    }

    constructor ()
      ensures Valid() && history == START
    {
      buffer, flushing, dropped := [], false, 0;
      history := START;
    }

    method Record(r: Record)
      requires Valid()
      modifies this
      ensures Valid() && history == Next(old(history), Call(r))
      ensures buffer == (if |old(buffer)| < 5000 then old(buffer) + [r] else old(buffer))
      ensures dropped == old(dropped) + (if |old(buffer)| < 5000 then 0 else 1) && flushing == old(flushing)
    {
      history := Next(history, Call(r));
      if |buffer| >= MAX_BUFFER {
        dropped := dropped + 1;
        return;
      }
      buffer := buffer + [r];
    }

    /** The part of flush in front of its await; the batch is sent if there is one. */
    method BeginFlush() returns (batch: Option<seq<Record>>)
      requires Valid()
      modifies this
      ensures Valid() && history == Next(old(history), Begin)
      ensures batch.Some? <==> !old(flushing) && old(buffer) != []
      ensures batch.Some? ==> batch.value == if |old(buffer)| <= 500 then old(buffer) else old(buffer)[..500]
      ensures flushing == (old(flushing) || old(buffer) != []) && buffer == old(buffer) && dropped == old(dropped)
    {
      history := Next(history, Begin);
      if flushing || |buffer| == 0 {
        return None;
      }
      flushing := true;
      batch := Some(if |buffer| <= MAX_BATCH then buffer else buffer[..MAX_BATCH]);
    }

    /** The part of flush behind its await: `ok` says whether the request was answered well. */
    method EndFlush(batch: seq<Record>, ok: bool)
      requires Valid() && history.batch == Some(batch)
      modifies this
      ensures Valid() && history == Next(old(history), End(ok)) && !flushing
      ensures |batch| <= |old(buffer)| && buffer == (if ok then old(buffer)[|batch|..] else old(buffer))
      ensures dropped == if ok then 0 else old(dropped)
    {
      history := Next(history, End(ok));
      if ok {
        buffer := buffer[|batch|..];
        if dropped > 0 {
          dropped := 0;
        }
      }
      flushing := false;
    }
  }

  // ---------------------------------------------------------------------------
  // All interleavings
  // ---------------------------------------------------------------------------

  ghost predicate Invariant(s: State) {
    && s.accepted == s.acknowledged + s.buffer
    && |s.buffer| <= MAX_BUFFER
    && |s.calls| == |s.accepted| + s.dropped + s.reported
    && (s.batch.Some? ==> s.batch.value <= s.buffer && 0 < |s.batch.value| <= MAX_BATCH)
  }

  lemma KeepsInvariant(s: State, step: Step)
    requires Invariant(s)
    ensures Invariant(Next(s, step))
  {
    match step {
      case Call(r) =>
        assert s.acknowledged + (s.buffer + [r]) == s.acknowledged + s.buffer + [r];
      case Begin =>
      case End(ok) =>
        if s.batch.Some? && ok {
          var b := s.batch.value;
          assert s.buffer == b + s.buffer[|b|..];
          assert s.acknowledged + (b + s.buffer[|b|..]) == s.acknowledged + b + s.buffer[|b|..];
        }
    }
  }

  lemma {:induction false} RunKeeps(s: State, steps: seq<Step>)
    requires Invariant(s)
    ensures Invariant(Run(s, steps))
    decreases |steps|
  {
    if steps != [] {
      KeepsInvariant(s, steps[0]);
      RunKeeps(Next(s, steps[0]), steps[1..]);
    }
  }

  /**
   * In every interleaving of records and flushes: accepted records are those acknowledged and those
   * buffered, in order and without repetition; a batch under way is the front of the buffer; the
   * buffer stays within its limit; every record given is acknowledged, buffered or dropped.
   */
  lemma NothingMislaid(steps: seq<Step>)
    ensures var s := Run(START, steps);
            && s.accepted == s.acknowledged + s.buffer && |s.buffer| <= MAX_BUFFER
            && |s.calls| == |s.acknowledged| + |s.buffer| + s.dropped + s.reported
            && (s.batch.Some? ==> s.batch.value <= s.buffer && 0 < |s.batch.value| <= MAX_BATCH)
  {
    assert [] + START.buffer == START.accepted;
    RunKeeps(START, steps);
  }

  predicate IsSubsequence(a: seq<Record>, b: seq<Record>)
    decreases |b|
  {
    if a == [] then true
    else if b == [] then false
    else if a[|a| - 1] == b[|b| - 1] && IsSubsequence(a[..|a| - 1], b[..|b| - 1]) then true
    else IsSubsequence(a, b[..|b| - 1])
  }

  lemma {:induction false} AcceptedInOrder(s: State, steps: seq<Step>)
    requires IsSubsequence(s.accepted, s.calls)
    ensures IsSubsequence(Run(s, steps).accepted, Run(s, steps).calls)
    decreases |steps|
  {
    if steps != [] {
      var t := Next(s, steps[0]);
      if steps[0].Call? {
        var r := steps[0].r;
        assert (s.calls + [r])[..|s.calls|] == s.calls;
        assert (s.accepted + [r])[..|s.accepted|] == s.accepted;
      }
      AcceptedInOrder(t, steps[1..]);
    }
  }

  /** Acknowledged and buffered records come in the order in which they were given. */
  lemma OrderKept(steps: seq<Step>)
    ensures var s := Run(START, steps); IsSubsequence(s.acknowledged + s.buffer, s.calls)
  {
    NothingMislaid(steps);
    AcceptedInOrder(START, steps);
  }

  /** The records of the calls that are made while the buffer has room, and the number of the others. */
  function GivenRoom(s: State, steps: seq<Step>): seq<Record>
    decreases |steps|
  {
    if steps == [] then []
    else (if steps[0].Call? && |s.buffer| < 5000 then [steps[0].r] else []) + GivenRoom(Next(s, steps[0]), steps[1..])
  }

  function GivenNoRoom(s: State, steps: seq<Step>): nat
    decreases |steps|
  {
    if steps == [] then 0
    else (if steps[0].Call? && |s.buffer| >= 5000 then 1 else 0) + GivenNoRoom(Next(s, steps[0]), steps[1..])
  }

  lemma {:induction false} DropsOnlyWhenFull(s: State, steps: seq<Step>)
    ensures var t := Run(s, steps);
            && t.accepted == s.accepted + GivenRoom(s, steps)
            && t.dropped + t.reported == s.dropped + s.reported + GivenNoRoom(s, steps)
    decreases |steps|
  {
    if steps != [] {
      DropsOnlyWhenFull(Next(s, steps[0]), steps[1..]);
    }
  }

  /**
   * In every interleaving, exactly the records that are given while fewer than 5000 are buffered are
   * acknowledged or buffered, in their order, and exactly the others are counted as dropped.
   */
  lemma KeepsWhatHasRoom(steps: seq<Step>)
    ensures var s := Run(START, steps);
            && s.acknowledged + s.buffer == GivenRoom(START, steps)
            && s.dropped + s.reported == GivenNoRoom(START, steps)
  {
    DropsOnlyWhenFull(START, steps);
    NothingMislaid(steps);
  }

  /** A flush that is answered well removes exactly its batch, whatever arrived in the meantime. */
  lemma {:induction false} FlushRemovesItsBatch(s: State, during: seq<Record>)
    requires Invariant(s) && s.batch.None? && s.buffer != []
    ensures var batch := if |s.buffer| <= 500 then s.buffer else s.buffer[..500];
            var t := Run(Next(s, Begin), seq(|during|, k requires 0 <= k < |during| => Call(during[k])));
            && t.batch == Some(batch) && batch <= t.buffer
            && Next(t, End(true)).buffer == t.buffer[|batch|..]
            && Next(t, End(true)).acknowledged == s.acknowledged + batch
            && Next(t, End(false)).buffer == t.buffer && Next(t, End(false)).acknowledged == s.acknowledged
  {
    var begun := Next(s, Begin);
    KeepsInvariant(s, Begin);
    CallsKeepBatch(begun, during);
  }

  lemma {:induction false} CallsKeepBatch(s: State, during: seq<Record>)
    requires Invariant(s)
    ensures var t := Run(s, seq(|during|, k requires 0 <= k < |during| => Call(during[k])));
            t.batch == s.batch && t.acknowledged == s.acknowledged && s.buffer <= t.buffer && Invariant(t)
    decreases |during|
  {
    var steps := seq(|during|, k requires 0 <= k < |during| => Call(during[k]));
    if during != [] {
      var rest := during[1..];
      assert steps[1..] == seq(|rest|, k requires 0 <= k < |rest| => Call(rest[k]));
      KeepsInvariant(s, steps[0]);
      CallsKeepBatch(Next(s, steps[0]), rest);
    }
  }
}
