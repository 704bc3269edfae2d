// When a steer that carries its request comes to nothing.

module SteerOutcomes {
  import opened SteerProtocol

  // ---------------------------------------------------------------------------
  // What happened in a run of the protocol
  // ---------------------------------------------------------------------------

  /** Some process crashed with the signal in hand. */
  predicate HolderCrashed(s: State, steps: seq<Step>, x: Signal)
    decreases |steps|
  {
    && steps != [] && Enabled(s, steps[0])
    && ((steps[0].Crash? && InHand(s.processes[steps[0].i], x) > 0) || HolderCrashed(Next(s, steps[0]), steps[1..], x))
  }

  /** The signal was taken for replay, and its turn threw or gave no run. */
  predicate TurnInVain(s: State, steps: seq<Step>, x: Signal)
    decreases |steps|
  {
    && steps != [] && Enabled(s, steps[0])
    && (FailsNow(s, steps[0], x) || TurnInVain(Next(s, steps[0]), steps[1..], x))
  }

  predicate FailsNow(s: State, step: Step, x: Signal)
    requires Enabled(s, step)
  {
    && step.Replay? && s.processes[step.i].held[0] == x && x.kind == Steer && x.request
    && !step.answer.Started? && !step.steer
  }

  /** Some process crashed that was about to look after the run's signals. */
  predicate KeeperCrashed(s: State, steps: seq<Step>, run: nat)
    decreases |steps|
  {
    && steps != [] && Enabled(s, steps[0])
    && ((steps[0].Crash? && Attends(s.processes[steps[0].i], run)) || KeeperCrashed(Next(s, steps[0]), steps[1..], run))
  }

  lemma OneCount(a: Signal, x: Signal)
    ensures Count([a], x) == if a == x then 1 else 0
  {
    assert [a][1..] == [];
  }

  lemma LostNow(s: State, step: Step, x: Signal)
    requires Enabled(s, step)
    ensures Count(Next(s, step).lost, x) ==
            Count(s.lost, x) + if step.Crash? then InHand(s.processes[step.i], x) else 0
  {
    hide Count, IsReplayed, SignalsOf, RowsNotOf;
    if step.Crash? {
      match s.processes[step.i] {
        case Deciding(_, signal) =>
          OneCount(signal, x);
          CountConcat(s.lost, [signal], x);
        case Replaying(_, held) =>
          CountConcat(s.lost, held, x);
        case _ =>
      }
    }
  }

  lemma FailedNow(s: State, step: Step, x: Signal)
    requires Enabled(s, step)
    ensures Count(Next(s, step).failed, x) == Count(s.failed, x) + if FailsNow(s, step, x) then 1 else 0
  {
    hide Count, SignalsOf, RowsNotOf;
    if step.Replay? {
      var first := s.processes[step.i].held[0];
      OneCount(first, x);
      CountConcat(s.failed, [first], x);
    }
  }

  lemma {:induction false} LostByCrash(s: State, steps: seq<Step>, t: State, x: Signal)
    requires Reaches(s, steps, t)
    ensures Count(t.lost, x) > 0 <==> Count(s.lost, x) > 0 || HolderCrashed(s, steps, x)
    decreases |steps|
  {
    hide Count, Next, Enabled, InHand;
    if steps != [] {
      LostNow(s, steps[0], x);
      LostByCrash(Next(s, steps[0]), steps[1..], t, x);
    }
  }

  lemma {:induction false} FailedInVain(s: State, steps: seq<Step>, t: State, x: Signal)
    requires Reaches(s, steps, t)
    ensures Count(t.failed, x) > 0 <==> Count(s.failed, x) > 0 || TurnInVain(s, steps, x)
    decreases |steps|
  {
    hide Count, Next, Enabled, FailsNow;
    if steps != [] {
      FailedNow(s, steps[0], x);
      FailedInVain(Next(s, steps[0]), steps[1..], t, x);
    }
  }

  lemma AbandonedNow(s: State, step: Step, run: nat)
    requires Enabled(s, step) && run in Next(s, step).abandoned
    ensures run in s.abandoned || (step.Crash? && Attends(s.processes[step.i], run))
  {
    hide IsReplayed, SignalsOf, RowsNotOf;
  }

  lemma {:induction false} AbandonedByCrash(s: State, steps: seq<Step>, t: State, run: nat)
    requires Reaches(s, steps, t) && run in t.abandoned
    ensures run in s.abandoned || KeeperCrashed(s, steps, run)
    decreases |steps|
  {
    hide Next, Enabled, Attends;
    if steps != [] {
      AbandonedByCrash(Next(s, steps[0]), steps[1..], t, run);
      if run in Next(s, steps[0]).abandoned {
        AbandonedNow(s, steps[0], run);
      }
    }
  }

  // ---------------------------------------------------------------------------
  // Exactly what loses a steer
  // ---------------------------------------------------------------------------

  predicate Waits(s: State, x: Signal, k: int) {
    0 <= k < |s.rows| && s.rows[k].signal == x
  }

  predicate WaitsOnLive(s: State, x: Signal) {
    exists k :: 0 <= k < |s.rows| && Waits(s, x, k) && IsLive(s, s.rows[k].run)
  }

  /** The signal waits on a run whose keeper has crashed; the sweeper will find it there. */
  predicate IsStranded(s: State, steps: seq<Step>, t: State, x: Signal) {
    exists k :: 0 <= k < |t.rows| && Waits(t, x, k) && KeeperCrashed(s, steps, t.rows[k].run)
  }

  lemma {:induction false} CountedRows(rows: seq<Row>, x: Signal)
    ensures CountRows(rows, x) > 0 <==> exists k :: 0 <= k < |rows| && rows[k].signal == x
  {
    if rows != [] {
      CountedRows(rows[1..], x);
      assert rows == [rows[0]] + rows[1..];
    }
  }

  /**
   * When all senders, hooks and sweeps have finished, a steer with its request that does not wait on
   * a live run has neither been taken by its run nor been issued again if and only if its holder
   * crashed, its turn threw or gave no run, or it waits on an ended run whose keeper crashed.
   */
  lemma LostExactly(s: State, steps: seq<Step>, t: State, x: Signal)
    requires Init(s) && Reaches(s, steps, t) && Quiet(t) && x in t.begun && IsReplayed(x) && !WaitsOnLive(t, x)
    ensures Count(t.consumed, x) + Count(t.reissued, x) == 0 <==>
            HolderCrashed(s, steps, x) || TurnInVain(s, steps, x) || IsStranded(s, steps, t, x)
  {
    hide Reaches, OnePlace, TakersSawEnd, Sorted, HolderCrashed, TurnInVain, KeeperCrashed, IsReplayed, Attended;
    StartsWell(s);
    RunsKeepInvariant(s, steps, t);
    ExactlyOnePlace(s, steps, t, x);
    QuietHands(t.processes, x);
    LostByCrash(s, steps, t, x);
    FailedInVain(s, steps, t, x);
    CountedRows(t.rows, x);
    if k :| 0 <= k < |t.rows| && t.rows[k].signal == x {
      assert Waits(t, x, k);
      NobodyAttends(t, t.rows[k].run);
      AbandonedByCrash(s, steps, t, t.rows[k].run);
    }
  }

  // ---------------------------------------------------------------------------
  // A run for each case
  // ---------------------------------------------------------------------------

  const STEER: Signal := Signal(0, Steer, true)
  const START: State := State(map[], [], [], [], [], [], [], [], [], {})

  /** The run ends between the sender's look and its send; the hook finds nothing, the sender takes the signal back. */
  const RACE: seq<Step> :=
    [NewRun(0), Begin(0, Steer, true), Terminate(0), Take(1), Send(0), Recheck(0), Take(0)]

  const SENT: State :=
    State(map[0 := Terminal], [Row(0, STEER)], [Rechecking(0), Replaying(0, [])], [STEER], [], [], [], [], [], {})

  const TAKEN: State :=
    State(map[0 := Terminal], [], [Replaying(0, [STEER]), Replaying(0, [])], [STEER], [], [], [], [], [], {})

  lemma {:induction false} RunOn(s: State, steps: seq<Step>, t: State, more: seq<Step>)
    requires Reaches(s, steps, t)
    ensures Run(s, steps + more) == Run(t, more)
    decreases |steps|
  {
    hide Next, Enabled;
    if steps == [] {
      assert [] + more == more;
    } else {
      assert (steps + more)[1..] == steps[1..] + more && (steps + more)[0] == steps[0];
      RunOn(Next(s, steps[0]), steps[1..], t, more);
    }
  }

  lemma OneStep(s: State, step: Step)
    requires Enabled(s, step)
    ensures Reaches(s, [step], Next(s, step))
  {
    hide Next, Enabled;
    assert [step][1..] == [];
    assert Run(Next(s, step), []) == (Next(s, step), true);
  }

  lemma OneMore(s: State, steps: seq<Step>, t: State, step: Step)
    requires Reaches(s, steps, t) && Enabled(t, step)
    ensures Reaches(s, steps + [step], Next(t, step))
  {
    hide Next, Enabled, Run;
    RunOn(s, steps, t, [step]);
    OneStep(t, step);
  }

  lemma RaceSends()
    ensures Reaches(START, RACE[..5], SENT)
  {
    hide Run;
    var live := START.(status := map[0 := Live]);
    OneStep(START, NewRun(0));
    var begun := live.(begun := [STEER], processes := [Deciding(0, STEER)]);
    OneMore(START, [NewRun(0)], live, RACE[1]);
    assert Next(live, RACE[1]) == begun;
    var ended := begun.(status := map[0 := Terminal], processes := [Deciding(0, STEER), Taking(0)]);
    OneMore(START, [NewRun(0)] + [RACE[1]], begun, RACE[2]);
    assert Next(begun, RACE[2]) == ended;
    var hooked := ended.(processes := [Deciding(0, STEER), Replaying(0, [])]);
    OneMore(START, [NewRun(0)] + [RACE[1]] + [RACE[2]], ended, RACE[3]);
    assert Next(ended, RACE[3]) == hooked;
    OneMore(START, [NewRun(0)] + [RACE[1]] + [RACE[2]] + [RACE[3]], hooked, RACE[4]);
    assert Next(hooked, RACE[4]) == SENT;
    assert RACE[..5] == [NewRun(0)] + [RACE[1]] + [RACE[2]] + [RACE[3]] + [RACE[4]];
  }

  lemma RaceTakes()
    ensures Reaches(START, RACE, TAKEN)
  {
    hide Run;
    RaceSends();
    var looked := SENT.(processes := [Taking(0), Replaying(0, [])]);
    OneMore(START, RACE[..5], SENT, RACE[5]);
    assert Next(SENT, RACE[5]) == looked;
    OneMore(START, RACE[..5] + [RACE[5]], looked, RACE[6]);
    assert SENT.rows[1..] == [];
    assert SignalsOf([], 0) == [] && [STEER] + [] == [STEER] && SignalsOf(SENT.rows, 0) == [STEER];
    assert RowsNotOf(SENT.rows[1..], 0) == [] && RowsNotOf(SENT.rows, 0) == [];
    assert looked.processes[0 := Replaying(0, [STEER])] == TAKEN.processes;
    assert looked.abandoned - {0} == TAKEN.abandoned;
    assert Next(looked, RACE[6]) == TAKEN;
    assert RACE == RACE[..5] + [RACE[5]] + [RACE[6]];
  }

  /** Where the steer is after a run of the protocol that leaves nothing to do. */
  ghost predicate EndsIn(steps: seq<Step>, t: State) {
    Reaches(START, steps, t) && Init(START) && Quiet(t) && STEER in t.begun && t.consumed == [] && t.reissued == []
  }

  /** The process that has taken the steer crashes. */
  lemma LostInCrash()
    ensures EndsIn(RACE + [Crash(0)], TAKEN.(processes := [Idle, Replaying(0, [])], lost := [STEER]))
  {
    hide Run;
    RaceTakes();
    OneMore(START, RACE, TAKEN, Crash(0));
    assert TAKEN.processes[0 := Idle] == [Idle, Replaying(0, [])] && [] + [STEER] == [STEER];
  }

  /** Nothing crashes, and the turn of the steer throws or gives no run. */
  lemma LostInTurn(answer: Answer)
    requires !answer.Started?
    ensures NoCrash(RACE + [Replay(0, answer, false, 0)])
    ensures EndsIn(RACE + [Replay(0, answer, false, 0)],
                   TAKEN.(processes := [Replaying(0, []), Replaying(0, [])], failed := [STEER]))
  {
    hide Run;
    RaceTakes();
    var last := Replay(0, answer, false, 0);
    OneMore(START, RACE, TAKEN, last);
    assert TAKEN.processes[0 := Replaying(0, [])] == [Replaying(0, []), Replaying(0, [])];
    assert [STEER][1..] == [] && [] + [STEER] == [STEER];
  }

  /** The sender crashes between its send and its second look; the sweeper finds the steer. */
  lemma StrandedInCrash()
    ensures EndsIn(RACE[..5] + [Crash(0)], SENT.(processes := [Idle, Replaying(0, [])], abandoned := {0}))
  {
    hide Run;
    RaceSends();
    OneMore(START, RACE[..5], SENT, Crash(0));
    assert SENT.processes[0 := Idle] == [Idle, Replaying(0, [])] && {} + {0} == {0};
  }
}
