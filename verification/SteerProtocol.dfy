// Steering a run that may be ending: senders, the run's own consumer, the terminal hook, the
// sweeper and crashes, interleaved at every await.

module SteerProtocol {
  // ---------------------------------------------------------------------------
  // Signals and their store
  // ---------------------------------------------------------------------------

  datatype Kind = Abort | Steer

  /** A sent signal; `id` numbers the sends, `request` says whether the turn request travels with it. */
  datatype Signal = Signal(id: nat, kind: Kind, request: bool)

  /** A stored signal that nobody has taken. */
  datatype Row = Row(run: nat, signal: Signal)

  function SignalsOf(rows: seq<Row>, run: nat): seq<Signal> {
    if rows == [] then []
    else (if rows[0].run == run then [rows[0].signal] else []) + SignalsOf(rows[1..], run)
  }

  function RowsNotOf(rows: seq<Row>, run: nat): seq<Row> {
    if rows == [] then []
    else (if rows[0].run == run then [] else [rows[0]]) + RowsNotOf(rows[1..], run)
  }

  /** What replaying a signal comes to: it is skipped, or its request is issued again. */
  predicate IsReplayed(s: Signal) {
    s.kind.Steer? && s.request
  }

  function Replayed(ss: seq<Signal>): seq<Signal> {
    if ss == [] then [] else (if IsReplayed(ss[0]) then [ss[0]] else []) + Replayed(ss[1..])
  }

  function NotReplayed(ss: seq<Signal>): seq<Signal> {
    if ss == [] then [] else (if IsReplayed(ss[0]) then [] else [ss[0]]) + NotReplayed(ss[1..])
  }

  /** The answer to a turn that is issued again: it may name a run, name none, or throw. */
  datatype Answer = Started(run: nat) | NoRun | Threw

  datatype Drained = Drained(signal: Signal, run: Answer)

  /** What replaying one signal adds to the result: nothing for an abort, else an entry with its new run. */
  function DrainedOne(s: Signal, turn: Signal -> Answer): seq<Drained> {
    if s.kind.Abort? then []
    else if s.request && turn(s).Started? then [Drained(s, turn(s))]
    else [Drained(s, NoRun)]
  }

  function DrainedOf(ss: seq<Signal>, turn: Signal -> Answer): seq<Drained> {
    if ss == [] then [] else DrainedOne(ss[0], turn) + DrainedOf(ss[1..], turn)
  }

  class SignalStore {
    var rows: seq<Row>

    constructor ()
      ensures rows == []
    {
      rows := [];
    }

    method Send(run: nat, signal: Signal)
      modifies this
      ensures rows == old(rows) + [Row(run, signal)]
    {
      rows := rows + [Row(run, signal)];
    }

    /** Takes the run's signals in the order in which they were sent. */
    method TakePending(run: nat) returns (taken: seq<Signal>)
      modifies this
      ensures taken == SignalsOf(old(rows), run) && rows == RowsNotOf(old(rows), run)
    {
      ghost var all := rows;
      taken := [];
      var kept: seq<Row> := [];
      for i := 0 to |rows|
        invariant rows == all
        invariant taken + SignalsOf(all[i..], run) == SignalsOf(all, run)
        invariant kept + RowsNotOf(all[i..], run) == RowsNotOf(all, run)
      {
        assert all[i..][1..] == all[i + 1..];
        if rows[i].run == run {
          taken := taken + [rows[i].signal];
        } else {
          kept := kept + [rows[i]];
        }
      }
      rows := kept;
    }
  }

  /** Takes a run's signals and issues their requests again, one after the other. */
  method ReplayOrphanedRunSignals(store: SignalStore, run: nat, turn: Signal -> Answer)
    returns (drained: seq<Drained>, ghost issued: seq<Signal>)
    modifies store
    ensures store.rows == RowsNotOf(old(store.rows), run)
    ensures issued == Replayed(SignalsOf(old(store.rows), run))
    ensures drained == DrainedOf(SignalsOf(old(store.rows), run), turn)
  {
    drained, issued := [], [];
    var pending := store.TakePending(run);
    for i := 0 to |pending|
      invariant drained + DrainedOf(pending[i..], turn) == DrainedOf(pending, turn)
      invariant issued + Replayed(pending[i..]) == Replayed(pending)
      invariant store.rows == RowsNotOf(old(store.rows), run)
    {
      var signal := pending[i];
      ReplayStep(pending, i, drained, issued, turn);
      if signal.kind.Abort? {
        continue;
      }
      if !signal.request {
        drained := drained + [Drained(signal, NoRun)];
        continue;
      }
      issued := issued + [signal];
      var replayed := turn(signal);
      drained := drained + [Drained(signal, if replayed.Started? then replayed else NoRun)];
    }
  }

  /** One round of the loop moves one signal from what is left to what has been done. */
  lemma ReplayStep(ss: seq<Signal>, i: nat, drained: seq<Drained>, issued: seq<Signal>, turn: Signal -> Answer)
    requires i < |ss|
    ensures var one := DrainedOne(ss[i], turn);
            drained + DrainedOf(ss[i..], turn) == drained + one + DrainedOf(ss[i + 1..], turn)
    ensures var one := if IsReplayed(ss[i]) then [ss[i]] else [];
            issued + Replayed(ss[i..]) == issued + one + Replayed(ss[i + 1..])
    ensures drained + [] == drained && issued + [] == issued
  {
    assert ss[i..][0] == ss[i] && ss[i..][1..] == ss[i + 1..];
  }

  // ---------------------------------------------------------------------------
  // The protocol as steps
  // ---------------------------------------------------------------------------

  /** The record of a run that has ended may be removed; senders treat it like one that has ended. */
  datatype Status = Live | Terminal | Removed

  /** A process between two awaits. */
  datatype Process =
    | Deciding(run: nat, signal: Signal)            // has seen the run live and is about to send
    | Rechecking(run: nat)                          // has sent and is about to read the run again
    | Taking(run: nat)                              // is about to take the signals of an ended run
    | Replaying(run: nat, held: seq<Signal>)        // has taken them and issues them one by one
    | Sweeping(runs: seq<nat>)                      // the sweeper, with runs still to look at
    | Idle                                          // has finished, or has crashed

  /**
   * `begun` lists all signals in the order of their ids; the lists behind it record where they have
   * ended up: taken by their own run, issued again, taken for replay but issued in vain, dropped, or
   * lost with their holder. `abandoned` holds the runs whose keeper has crashed.
   */
  datatype State = State(
    status: map<nat, Status>, rows: seq<Row>, processes: seq<Process>, begun: seq<Signal>,
    consumed: seq<Signal>, reissued: seq<Signal>, failed: seq<Signal>, dropped: seq<Signal>, lost: seq<Signal>,
    abandoned: set<nat>)

  predicate IsLive(s: State, run: nat) {
    run in s.status && s.status[run].Live?
  }

  predicate Init(s: State) {
    && s.status == map[] && s.rows == [] && s.processes == [] && s.begun == [] && s.abandoned == {}
    && s.consumed == [] && s.reissued == [] && s.failed == [] && s.dropped == [] && s.lost == []
  }

  function Spawn(s: State, p: Process): State {
    s.(processes := s.processes + [p])
  }

  function Become(s: State, i: nat, p: Process): State
    requires i < |s.processes|
  {
    s.(processes := s.processes[i := p])
  }

  datatype Step =
    | NewRun(run: nat)
    | Begin(run: nat, kind: Kind, request: bool)
    | Send(i: nat)
    | Recheck(i: nat)
    | Take(i: nat)
    | Replay(i: nat, answer: Answer, steer: bool, into: nat)
    | Consume(run: nat)
    | Terminate(run: nat)
    | Remove(run: nat)
    | Sweep(runs: seq<nat>)
    | SweepOne(i: nat)
    | Crash(i: nat)

  function ProcessAt(s: State, i: nat): Process {
    if i < |s.processes| then s.processes[i] else Idle
  }

  predicate HasRow(rows: seq<Row>, run: nat) {
    exists k :: 0 <= k < |rows| && rows[k].run == run
  }

  /** When a step can be taken. A turn is steered only into a run that it sees live. */
  predicate Enabled(s: State, step: Step) {
    match step
    case NewRun(run) => run !in s.status
    case Begin(run, _, _) => IsLive(s, run)
    case Send(i) => ProcessAt(s, i).Deciding?
    case Recheck(i) => ProcessAt(s, i).Rechecking?
    case Take(i) => ProcessAt(s, i).Taking?
    case Replay(i, _, steer, into) =>
      && ProcessAt(s, i).Replaying? && ProcessAt(s, i).held != []
      && (steer ==> IsReplayed(ProcessAt(s, i).held[0]) && IsLive(s, into))
    case Consume(run) => true
    case Terminate(run) => IsLive(s, run)
    case Remove(run) => run in s.status && s.status[run].Terminal?
    case Sweep(runs) => forall r :: r in runs ==> HasRow(s.rows, r)
    case SweepOne(i) => ProcessAt(s, i).Sweeping? && ProcessAt(s, i).runs != []
    case Crash(i) => i < |s.processes|
  }

  /** The turn of a replayed request has an effect if it starts or names a run, or steers into one. */
  predicate IsInVain(answer: Answer, steer: bool) {
    !answer.Started? && !steer
  }

  /** A turn that names a run has created it, unless it was there. */
  function WithRun(status: map<nat, Status>, answer: Answer): map<nat, Status> {
    if answer.Started? && answer.run !in status then status[answer.run := Live] else status
  }

  /** The state after the loop's round for a signal; the turn may throw, and the loop goes on. */
  function Issued(s: State, x: Signal, answer: Answer, steer: bool): (t: State)
    ensures t.processes == s.processes && t.rows == s.rows && t.begun == s.begun && t.abandoned == s.abandoned
    ensures t.consumed == s.consumed && t.lost == s.lost
    ensures x.kind == Steer && x.request && answer.Started? ==> answer.run in t.status
  {
    if !IsReplayed(x) then s.(dropped := s.dropped + [x])
    else if IsInVain(answer, steer) then s.(failed := s.failed + [x])
    else s.(reissued := s.reissued + [x], status := WithRun(s.status, answer))
  }

  /** The state after a step. Ending a run starts the terminal hook, which takes its signals. */
  function Next(s: State, step: Step): State
    requires Enabled(s, step)
  {
    match step
    case NewRun(run) => s.(status := s.status[run := Live])
    case Begin(run, kind, request) =>
      var x := Signal(|s.begun|, kind, request);
      Spawn(s.(begun := s.begun + [x]), Deciding(run, x))
    case Send(i) =>
      var p := s.processes[i];
      Become(s.(rows := s.rows + [Row(p.run, p.signal)]), i, Rechecking(p.run))
    case Recheck(i) =>
      var run := s.processes[i].run;
      Become(s, i, if IsLive(s, run) then Idle else Taking(run))
    case Take(i) =>
      var run := s.processes[i].run;
      Become(s.(rows := RowsNotOf(s.rows, run), abandoned := s.abandoned - {run}),
             i, Replaying(run, SignalsOf(s.rows, run)))
    case Replay(i, answer, steer, into) =>
      var p := s.processes[i];
      var done := Become(Issued(s, p.held[0], answer, steer), i, Replaying(p.run, p.held[1..]));
      var x := Signal(|s.begun|, Steer, true);
      if steer then Spawn(done.(begun := done.begun + [x]), Deciding(into, x)) else done
    case Consume(run) =>
      s.(rows := RowsNotOf(s.rows, run), consumed := s.consumed + SignalsOf(s.rows, run))
    case Terminate(run) => Spawn(s.(status := s.status[run := Terminal]), Taking(run))
    case Remove(run) => s.(status := s.status[run := Removed])
    case Sweep(runs) => Spawn(s, Sweeping(runs))
    case SweepOne(i) =>
      var p := s.processes[i];
      var rest := Become(s, i, Sweeping(p.runs[1..]));
      if IsLive(s, p.runs[0]) then rest else Spawn(rest, Taking(p.runs[0]))
    case Crash(i) =>
      match s.processes[i]
      case Deciding(_, signal) => Become(s.(lost := s.lost + [signal]), i, Idle)
      case Rechecking(run) => Become(s.(abandoned := s.abandoned + {run}), i, Idle)
      case Taking(run) => Become(s.(abandoned := s.abandoned + {run}), i, Idle)
      case Replaying(_, held) => Become(s.(lost := s.lost + held), i, Idle)
      case _ => Become(s, i, Idle)
  }

  function Run(s: State, steps: seq<Step>): (r: (State, bool))
    decreases |steps|
  {
    if steps == [] then (s, true)
    else if Enabled(s, steps[0]) then Run(Next(s, steps[0]), steps[1..])
    else (s, false)
  }

  /** `t` is reached from `s` by the steps. */
  predicate Reaches(s: State, steps: seq<Step>, t: State) {
    Run(s, steps) == (t, true)
  }

  // ---------------------------------------------------------------------------
  // Where a signal is
  // ---------------------------------------------------------------------------

  function Count(ss: seq<Signal>, x: Signal): nat {
    if ss == [] then 0 else (if ss[0] == x then 1 else 0) + Count(ss[1..], x)
  }

  function CountRows(rows: seq<Row>, x: Signal): nat {
    if rows == [] then 0 else (if rows[0].signal == x then 1 else 0) + CountRows(rows[1..], x)
  }

  /** How often a process has the signal in hand. */
  function InHand(p: Process, x: Signal): nat {
    match p
    case Deciding(_, signal) => if signal == x then 1 else 0
    case Replaying(_, held) => Count(held, x)
    case _ => 0
  }

  function InHands(ps: seq<Process>, x: Signal): nat {
    if ps == [] then 0 else InHand(ps[0], x) + InHands(ps[1..], x)
  }

  /** In how many places a signal is. */
  function Places(s: State, x: Signal): nat {
    InHands(s.processes, x) + CountRows(s.rows, x)
    + Count(s.consumed, x) + Count(s.reissued, x) + Count(s.failed, x) + Count(s.dropped, x) + Count(s.lost, x)
  }

  /** Every signal that was ever begun is in exactly one place, and no other is anywhere. */
  ghost predicate OnePlace(s: State) {
    && (forall k :: 0 <= k < |s.begun| ==> s.begun[k].id == k)
    && (forall x: Signal :: Places(s, x) == if x in s.begun then 1 else 0)
  }

  /** Somebody will still look after the signals of an ended run. */
  ghost predicate Attended(s: State, run: nat) {
    exists i: nat :: Attends(ProcessAt(s, i), run)
  }

  predicate Attends(p: Process, run: nat) {
    (p.Rechecking? || p.Taking?) && p.run == run
  }

  /** A signal that waits on an ended run is attended to, unless the process that would do so has crashed. */
  ghost predicate NoneForgotten(s: State) {
    forall k :: 0 <= k < |s.rows| ==>
      var run := s.rows[k].run;
      IsLive(s, run) || Attended(s, run) || run in s.abandoned
  }

  /** Every run that is spoken of has been created; only ended runs have their signals taken for replay. */
  ghost predicate TakersSawEnd(s: State) {
    && (forall k :: 0 <= k < |s.rows| ==> s.rows[k].run in s.status)
    && (forall i :: 0 <= i < |s.processes| ==> SawEnd(s, s.processes[i]))
  }

  predicate SawEnd(s: State, p: Process) {
    match p
    case Deciding(run, _) => run in s.status
    case Rechecking(run) => run in s.status
    case Taking(run) => run in s.status && !s.status[run].Live?
    case Replaying(run, _) => run in s.status && !s.status[run].Live?
    case Sweeping(runs) => forall r :: r in runs ==> r in s.status
    case Idle => true
  }

  /** What has been issued again carried its request; what was dropped was an abort or carried none. */
  ghost predicate Sorted(s: State) {
    && (forall k :: 0 <= k < |s.reissued| ==> IsReplayed(s.reissued[k]))
    && (forall k :: 0 <= k < |s.failed| ==> IsReplayed(s.failed[k]))
    && (forall k :: 0 <= k < |s.dropped| ==> !IsReplayed(s.dropped[k]))
  }

  ghost predicate Invariant(s: State) {
    OnePlace(s) && NoneForgotten(s) && TakersSawEnd(s) && Sorted(s)
  }

  // ---------------------------------------------------------------------------
  // Every step keeps the invariant
  // ---------------------------------------------------------------------------

  lemma {:induction false} CountConcat(a: seq<Signal>, b: seq<Signal>, x: Signal)
    ensures Count(a + b, x) == Count(a, x) + Count(b, x)
    decreases |a|
  {
    if a == [] {
      assert a + b == b;
    } else {
      assert (a + b)[1..] == a[1..] + b;
      CountConcat(a[1..], b, x);
    }
  }

  lemma {:induction false} RowsAppend(rows: seq<Row>, r: Row, x: Signal)
    ensures CountRows(rows + [r], x) == CountRows(rows, x) + if r.signal == x then 1 else 0
  {
    if rows == [] {
      assert [] + [r] == [r];
    } else {
      assert (rows + [r])[1..] == rows[1..] + [r];
      RowsAppend(rows[1..], r, x);
    }
  }

  /** Replacing a process exchanges what it has in hand. */
  lemma {:induction false} HandsUpdate(ps: seq<Process>, i: nat, p: Process, x: Signal)
    requires i < |ps|
    ensures InHands(ps[i := p], x) + InHand(ps[i], x) == InHands(ps, x) + InHand(p, x)
  {
    hide InHand;
    if i == 0 {
      assert ps[0 := p][1..] == ps[1..];
    } else {
      assert ps[i := p][1..] == ps[1..][i - 1 := p];
      HandsUpdate(ps[1..], i - 1, p, x);
    }
  }

  lemma {:induction false} HandsSpawn(ps: seq<Process>, p: Process, x: Signal)
    ensures InHands(ps + [p], x) == InHands(ps, x) + InHand(p, x)
  {
    hide InHand;
    if ps == [] {
      assert [] + [p] == [p] && [p][1..] == [];
    } else {
      assert (ps + [p])[1..] == ps[1..] + [p];
      HandsSpawn(ps[1..], p, x);
    }
  }

  /** Taking a run's signals splits the stored ones. */
  lemma {:induction false} TakeSplits(rows: seq<Row>, run: nat, x: Signal)
    ensures CountRows(rows, x) == CountRows(RowsNotOf(rows, run), x) + Count(SignalsOf(rows, run), x)
  {
    if rows != [] {
      var kept, taken := RowsNotOf(rows[1..], run), SignalsOf(rows[1..], run);
      TakeSplits(rows[1..], run, x);
      if rows[0].run == run {
        assert [] + kept == kept && ([rows[0].signal] + taken)[1..] == taken;
      } else {
        assert [] + taken == taken && ([rows[0]] + kept)[1..] == kept;
      }
    }
  }

  lemma {:induction false} OthersStay(rows: seq<Row>, run: nat, k: nat)
    requires k < |RowsNotOf(rows, run)|
    ensures RowsNotOf(rows, run)[k] in rows && RowsNotOf(rows, run)[k].run != run
  {
    assert rows == [rows[0]] + rows[1..];
    if rows[0].run == run {
      OthersStay(rows[1..], run, k);
    } else if k > 0 {
      OthersStay(rows[1..], run, k - 1);
    }
  }

  /** A step moves signals between places; it adds only the one that it begins. */
  lemma KeepsPlaces(s: State, step: Step, x: Signal)
    requires Enabled(s, step)
    ensures var t := Next(s, step);
            && (t.begun == s.begun || (|t.begun| == |s.begun| + 1 && t.begun == s.begun + [t.begun[|s.begun|]]
                                       && t.begun[|s.begun|].id == |s.begun|))
            && Places(t, x) ==
               Places(s, x) + (if |t.begun| > |s.begun| && x == t.begun[|s.begun|] then 1 else 0)
  {
    hide InHands, CountRows, Count, RowsNotOf, SignalsOf, Issued;
    var t := Next(s, step);
    match step {
      case Begin(run, kind, request) =>
        HandsSpawn(s.processes, Deciding(run, Signal(|s.begun|, kind, request)), x);
      case Send(i) =>
        var p := s.processes[i];
        HandsUpdate(s.processes, i, Rechecking(p.run), x);
        RowsAppend(s.rows, Row(p.run, p.signal), x);
      case Recheck(i) =>
        HandsUpdate(s.processes, i, t.processes[i], x);
      case Take(i) =>
        HandsUpdate(s.processes, i, t.processes[i], x);
        TakeSplits(s.rows, s.processes[i].run, x);
      case Replay(i, answer, steer, into) =>
        KeepsReplay(s, i, answer, steer, into, x);
      case Consume(run) =>
        TakeSplits(s.rows, run, x);
        CountConcat(s.consumed, SignalsOf(s.rows, run), x);
      case Terminate(run) =>
        HandsSpawn(s.processes, Taking(run), x);
      case Sweep(runs) =>
        HandsSpawn(s.processes, Sweeping(runs), x);
      case SweepOne(i) =>
        var p := s.processes[i];
        HandsUpdate(s.processes, i, Sweeping(p.runs[1..]), x);
        HandsSpawn(s.processes[i := Sweeping(p.runs[1..])], Taking(p.runs[0]), x);
      case Crash(i) =>
        KeepsCrash(s, i, x);
      case _ =>
    }
  }

  lemma HeldSplits(held: seq<Signal>, x: Signal)
    requires held != []
    ensures Count(held, x) == Count([held[0]], x) + Count(held[1..], x)
    ensures Count([held[0]], x) == if held[0] == x then 1 else 0
  {
    assert [held[0]][1..] == [];
  }

  lemma KeepsReplay(s: State, i: nat, answer: Answer, steer: bool, into: nat, x: Signal)
    requires Enabled(s, Replay(i, answer, steer, into))
    ensures var t := Next(s, Replay(i, answer, steer, into));
            Places(t, x) == Places(s, x) + (if steer && x == Signal(|s.begun|, Steer, true) then 1 else 0)
  {
    hide InHands, CountRows, Count;
    var p := s.processes[i];
    HandsUpdate(s.processes, i, Replaying(p.run, p.held[1..]), x);
    HeldSplits(p.held, x);
    CountConcat(s.reissued, [p.held[0]], x);
    CountConcat(s.failed, [p.held[0]], x);
    CountConcat(s.dropped, [p.held[0]], x);
    HandsSpawn(s.processes[i := Replaying(p.run, p.held[1..])], Deciding(into, Signal(|s.begun|, Steer, true)), x);
  }

  lemma KeepsCrash(s: State, i: nat, x: Signal)
    requires i < |s.processes|
    ensures Places(Next(s, Crash(i)), x) == Places(s, x)
  {
    hide InHands, CountRows, Count;
    HandsUpdate(s.processes, i, Idle, x);
    match s.processes[i] {
      case Deciding(_, signal) =>
        HeldSplits([signal], x);
        CountConcat(s.lost, [signal], x);
      case Replaying(_, held) =>
        CountConcat(s.lost, held, x);
      case _ =>
    }
  }

  lemma KeepsOnePlace(s: State, step: Step)
    requires OnePlace(s) && Enabled(s, step)
    ensures OnePlace(Next(s, step))
  {
    hide Places, Next, Enabled;
    var t := Next(s, step);
    forall x: Signal ensures Places(t, x) == if x in t.begun then 1 else 0 {
      KeepsPlaces(s, step, x);
      if x in s.begun {
        var k :| 0 <= k < |s.begun| && s.begun[k] == x;
      }
    }
    KeepsPlaces(s, step, Signal(0, Abort, false));
  }

  /** Runs stay known, and what has ended stays ended. */
  ghost predicate GoesOn(s: State, t: State) {
    forall r :: r in s.status ==> r in t.status && (s.status[r].Live? || !t.status[r].Live?)
  }

  lemma StatusGoesOn(s: State, step: Step)
    requires Enabled(s, step)
    ensures GoesOn(s, Next(s, step))
  {
    hide SignalsOf, RowsNotOf, IsReplayed;
  }

  lemma StillSawEnd(s: State, t: State, p: Process)
    requires SawEnd(s, p) && GoesOn(s, t)
    ensures SawEnd(t, p)
  {
  }

  /** What a step sends speaks of a known run, and what it leaves was there before. */
  lemma RowsStayKnown(s: State, step: Step, k: nat)
    requires TakersSawEnd(s) && Enabled(s, step) && k < |Next(s, step).rows|
    ensures Next(s, step).rows[k].run in s.status
  {
    hide SignalsOf, RowsNotOf, IsReplayed, SawEnd;
    match step {
      case Send(i) =>
        DecidesOnKnown(s, s.processes[i]);
      case Take(i) =>
        OthersStay(s.rows, s.processes[i].run, k);
      case Consume(run) =>
        OthersStay(s.rows, run, k);
      case _ =>
    }
  }

  lemma DecidesOnKnown(s: State, p: Process)
    requires SawEnd(s, p) && p.Deciding?
    ensures p.run in s.status
  {
  }

  /** How a step moves a process on. */
  predicate MovesTo(s: State, p: Process, q: Process) {
    match q
    case Idle => true
    case Rechecking(run) => p.Deciding? && p.run == run
    case Taking(run) => p.Rechecking? && p.run == run && !IsLive(s, run)
    case Replaying(run, _) => (p.Taking? || p.Replaying?) && p.run == run
    case Sweeping(runs) => p.Sweeping? && forall r :: r in runs ==> r in p.runs
    case Deciding(_, _) => false
  }

  lemma StepMoves(s: State, step: Step, i: nat)
    requires Enabled(s, step) && i < |s.processes|
    ensures Next(s, step).processes[i] == s.processes[i] || MovesTo(s, s.processes[i], Next(s, step).processes[i])
  {
    hide SignalsOf, RowsNotOf, IsReplayed, HasRow, Issued;
  }

  /** A process that has moved on speaks of a known run, and of an ended one if it takes signals. */
  lemma MovedSawEnd(s: State, t: State, p: Process, q: Process)
    requires SawEnd(s, p) && GoesOn(s, t) && MovesTo(s, p, q)
    ensures SawEnd(t, q)
  {
  }

  lemma KeepsSawEnd(s: State, step: Step)
    requires TakersSawEnd(s) && Enabled(s, step)
    ensures TakersSawEnd(Next(s, step))
  {
    hide SawEnd, Next, Enabled, GoesOn, MovesTo;
    var t := Next(s, step);
    StatusGoesOn(s, step);
    forall k | 0 <= k < |t.rows| ensures t.rows[k].run in t.status {
      RowsStayKnown(s, step, k);
      StillKnown(s, t, t.rows[k].run);
    }
    forall i | 0 <= i < |t.processes| ensures SawEnd(t, t.processes[i]) {
      if i >= |s.processes| {
        AtMostOneMore(s, step);
        SpawnedSawEnd(s, step);
      } else {
        StepMoves(s, step, i);
        if t.processes[i] == s.processes[i] {
          StillSawEnd(s, t, s.processes[i]);
        } else {
          MovedSawEnd(s, t, s.processes[i], t.processes[i]);
        }
      }
    }
  }

  lemma StillKnown(s: State, t: State, run: nat)
    requires GoesOn(s, t) && run in s.status
    ensures run in t.status
  {
  }

  lemma AtMostOneMore(s: State, step: Step)
    requires Enabled(s, step)
    ensures |s.processes| <= |Next(s, step).processes| <= |s.processes| + 1
  {
    hide SignalsOf, RowsNotOf, IsReplayed;
  }

  /** A process that a step starts speaks of a run that has been created. */
  lemma SpawnedSawEnd(s: State, step: Step)
    requires TakersSawEnd(s) && Enabled(s, step) && |Next(s, step).processes| > |s.processes|
    ensures SawEnd(Next(s, step), Next(s, step).processes[|s.processes|])
  {
    hide SignalsOf, RowsNotOf, IsReplayed;
    StatusGoesOn(s, step);
    match step {
      case SweepOne(i) => assert SawEnd(s, s.processes[i]);
      case _ =>
    }
  }

  lemma KeepsSorted(s: State, step: Step)
    requires Sorted(s) && Enabled(s, step)
    ensures Sorted(Next(s, step))
  {
  }

  lemma StillAttended(s: State, t: State, i: nat, run: nat)
    requires Attends(ProcessAt(t, i), run)
    ensures Attended(t, run)
  {
  }

  /** A process that a step does not touch still attends to its run. */
  lemma AttendedOn(s: State, step: Step, run: nat)
    requires TakersSawEnd(s) && Enabled(s, step) && Attended(s, run) && !IsLive(s, run)
    ensures var t := Next(s, step);
            || Attended(t, run) || run in t.abandoned || (step.Take? && s.processes[step.i].run == run)
  {
    hide SignalsOf, RowsNotOf, IsReplayed;
    var t := Next(s, step);
    var i: nat :| Attends(ProcessAt(s, i), run);
    assert SawEnd(s, s.processes[i]);
    if t.processes[i] == s.processes[i] || step.Recheck? {
      StillAttended(s, t, i, run);
    }
  }

  lemma KeepsRemembered(s: State, step: Step)
    requires NoneForgotten(s) && TakersSawEnd(s) && Enabled(s, step)
    ensures NoneForgotten(Next(s, step))
  {
    hide SignalsOf, RowsNotOf, Attended, IsReplayed, TakersSawEnd, Enabled;
    var t := Next(s, step);
    forall k | 0 <= k < |t.rows|
      ensures var run := t.rows[k].run; IsLive(t, run) || Attended(t, run) || run in t.abandoned
    {
      RowRemembered(s, step, k);
    }
  }

  lemma RowRemembered(s: State, step: Step, k: nat)
    requires NoneForgotten(s) && TakersSawEnd(s) && Enabled(s, step) && k < |Next(s, step).rows|
    ensures var t := Next(s, step);
            var run := t.rows[k].run;
            IsLive(t, run) || Attended(t, run) || run in t.abandoned
  {
    hide SignalsOf, RowsNotOf, Attended, IsReplayed;
    var t := Next(s, step);
    var run := t.rows[k].run;
    if step.Send? && k == |s.rows| {
      StillAttended(s, t, step.i, run);
    } else {
      OldRow(s, step, k);
      if IsLive(s, run) {
        if step.Terminate? && step.run == run {
          StillAttended(s, t, |s.processes|, run);
        }
      } else if Attended(s, run) {
        AttendedOn(s, step, run);
      }
    }
  }

  /** A row that was not just sent was there before; taking a run's signals leaves no row of it. */
  lemma OldRow(s: State, step: Step, k: nat)
    requires Enabled(s, step) && k < |Next(s, step).rows| && !(step.Send? && k == |s.rows|)
    ensures var r := Next(s, step).rows[k];
            && r in s.rows && (step.Take? ==> s.processes[step.i].run != r.run)
  {
    hide SignalsOf;
    if step.Take? {
      OthersStay(s.rows, s.processes[step.i].run, k);
    } else if step.Consume? {
      OthersStay(s.rows, step.run, k);
    }
  }

  /** Every step keeps the invariant. */
  lemma KeepsInvariant(s: State, step: Step)
    requires Invariant(s) && Enabled(s, step)
    ensures Invariant(Next(s, step))
  {
    hide OnePlace, NoneForgotten, TakersSawEnd, Sorted, Next, Enabled;
    KeepsOnePlace(s, step);
    KeepsRemembered(s, step);
    KeepsSawEnd(s, step);
    KeepsSorted(s, step);
  }

  lemma {:induction false} RunsKeepInvariant(s: State, steps: seq<Step>, t: State)
    requires Invariant(s) && Reaches(s, steps, t)
    ensures Invariant(t)
    decreases |steps|
  {
    hide Invariant, Next, Enabled;
    if steps != [] {
      KeepsInvariant(s, steps[0]);
      RunsKeepInvariant(Next(s, steps[0]), steps[1..], t);
    }
  }

  lemma StartsWell(s: State)
    requires Init(s)
    ensures Invariant(s)
  {
  }

  /**
   * In every interleaving, every signal that was begun is in exactly one place: in the hands of a
   * process, stored, consumed by its run, issued again, issued in vain, dropped, or lost in a crash.
   * What was dropped was an abort or carried no request; only what carried one was issued.
   */
  lemma ExactlyOnePlace(s: State, steps: seq<Step>, t: State, x: Signal)
    requires Init(s) && Reaches(s, steps, t) && x in t.begun
    ensures InHands(t.processes, x) + CountRows(t.rows, x) + Count(t.consumed, x)
            + Count(t.reissued, x) + Count(t.failed, x) + Count(t.dropped, x) + Count(t.lost, x) == 1
    ensures IsReplayed(x) ==> Count(t.dropped, x) == 0
    ensures !IsReplayed(x) ==> Count(t.reissued, x) == 0 && Count(t.failed, x) == 0
  {
    hide NoneForgotten, TakersSawEnd, Reaches;
    StartsWell(s);
    RunsKeepInvariant(s, steps, t);
    NotCounted(t.dropped, x);
    NotCounted(t.reissued, x);
    NotCounted(t.failed, x);
  }

  lemma {:induction false} NotCounted(ss: seq<Signal>, x: Signal)
    ensures Count(ss, x) > 0 ==> x in ss
  {
    if ss != [] {
      NotCounted(ss[1..], x);
      assert ss == [ss[0]] + ss[1..];
    }
  }

  predicate NoCrash(steps: seq<Step>) {
    forall k :: 0 <= k < |steps| ==> !steps[k].Crash?
  }

  lemma {:induction false} NothingLost(s: State, steps: seq<Step>, t: State)
    requires s.lost == [] && s.abandoned == {} && Reaches(s, steps, t) && NoCrash(steps)
    ensures t.lost == [] && t.abandoned == {}
    decreases |steps|
  {
    hide Enabled, SignalsOf, RowsNotOf;
    if steps != [] {
      NothingLost(Next(s, steps[0]), steps[1..], t);
    }
  }

  /** No sender, hook or sweeper is between its steps. */
  predicate Quiet(s: State) {
    forall i :: 0 <= i < |s.processes| ==> s.processes[i].Idle? || (s.processes[i].Replaying? && s.processes[i].held == [])
  }

  lemma QuietHands(ps: seq<Process>, x: Signal)
    requires forall i :: 0 <= i < |ps| ==> ps[i].Idle? || (ps[i].Replaying? && ps[i].held == [])
    ensures InHands(ps, x) == 0
  {
    if ps != [] {
      QuietHands(ps[1..], x);
    }
  }

  /** Every turn of a replayed request started, named or steered into a run. */
  predicate NoTurnInVain(steps: seq<Step>) {
    forall k :: 0 <= k < |steps| && steps[k].Replay? ==> steps[k].answer.Started? || steps[k].steer
  }

  lemma {:induction false} NothingInVain(s: State, steps: seq<Step>, t: State)
    requires s.failed == [] && Reaches(s, steps, t) && NoTurnInVain(steps)
    ensures t.failed == []
    decreases |steps|
  {
    hide Enabled, SignalsOf, RowsNotOf;
    if steps != [] {
      NothingInVain(Next(s, steps[0]), steps[1..], t);
    }
  }

  /**
   * No wakeup is lost: when nothing has crashed and all senders, hooks and sweeps have finished, no
   * signal waits on an ended run, and every steer that carries its request has been taken by its
   * run, has been issued again or in vain, or waits on a live run; in vain only if a turn was.
   */
  lemma NoLostWakeup(s: State, steps: seq<Step>, t: State, x: Signal)
    requires Init(s) && Reaches(s, steps, t) && NoCrash(steps) && Quiet(t)
    ensures forall k :: 0 <= k < |t.rows| ==> IsLive(t, t.rows[k].run)
    ensures x in t.begun && IsReplayed(x) ==>
              Count(t.consumed, x) + Count(t.reissued, x) + Count(t.failed, x) + CountRows(t.rows, x) == 1
    ensures NoTurnInVain(steps) ==> Count(t.failed, x) == 0
  {
    hide Reaches, OnePlace, TakersSawEnd, Sorted, IsReplayed;
    StartsWell(s);
    RunsKeepInvariant(s, steps, t);
    NothingLost(s, steps, t);
    if NoTurnInVain(steps) {
      NothingInVain(s, steps, t);
    }
    QuietHands(t.processes, x);
    forall run ensures !Attended(t, run) {
      NobodyAttends(t, run);
    }
    if x in t.begun {
      ExactlyOnePlace(s, steps, t, x);
    }
  }

  lemma NobodyAttends(t: State, run: nat)
    requires Quiet(t)
    ensures !Attended(t, run)
  {
  }

  // ---------------------------------------------------------------------------
  // Taking and replaying
  // ---------------------------------------------------------------------------

  lemma {:induction false} KeepsOthers(rows: seq<Row>, run: nat, k: nat)
    requires k < |rows|
    ensures rows[k].run != run ==> rows[k] in RowsNotOf(rows, run)
    ensures rows[k].run == run ==> rows[k].signal in SignalsOf(rows, run)
  {
    if k > 0 {
      KeepsOthers(rows[1..], run, k - 1);
    }
  }

  /** Only its own consumer takes a signal that waits on a live run. */
  lemma OnlyItsConsumer(s: State, step: Step, k: nat)
    requires Invariant(s) && Enabled(s, step) && k < |s.rows| && IsLive(s, s.rows[k].run)
    ensures s.rows[k] in Next(s, step).rows || step == Consume(s.rows[k].run)
  {
    hide OnePlace, NoneForgotten, Sorted, SignalsOf, RowsNotOf;
    if step.Take? {
      assert SawEnd(s, s.processes[step.i]);
      KeepsOthers(s.rows, s.processes[step.i].run, k);
    } else if step.Consume? {
      KeepsOthers(s.rows, step.run, k);
    }
  }

  /** After crashes, one look of the sweeper at an ended run takes all that waits on it. */
  lemma SweepRecovers(s: State, run: nat)
    requires HasRow(s.rows, run) && !IsLive(s, run)
    ensures var n := |s.processes|;
            var steps := [Sweep([run]), SweepOne(n), Take(n + 1)];
            && Run(s, steps).1
            && var t := Run(s, steps).0;
            && t.rows == RowsNotOf(s.rows, run) && !HasRow(t.rows, run)
            && ProcessAt(t, n + 1) == Replaying(run, SignalsOf(s.rows, run)) && run !in t.abandoned
  {
    hide RowsNotOf, SignalsOf;
    var n := |s.processes|;
    var steps := [Sweep([run]), SweepOne(n), Take(n + 1)];
    var s1 := Next(s, steps[0]);
    var s2 := Next(s1, steps[1]);
    var s3 := Next(s2, steps[2]);
    assert steps[1..][1..] == [steps[2]] && [steps[2]][1..] == [];
    assert Run(s3, []) == (s3, true);
    assert Run(s2, [steps[2]]) == (s3, true);
    assert Run(s1, steps[1..]) == (s3, true);
    forall k | 0 <= k < |s3.rows| ensures s3.rows[k].run != run {
      OthersStay(s.rows, run, k);
    }
  }

  /** The signals whose turns start a run, and those whose turns do not. */
  function Reissued(ss: seq<Signal>, turn: Signal -> Answer): seq<Signal> {
    if ss == [] then []
    else (if IsReplayed(ss[0]) && turn(ss[0]).Started? then [ss[0]] else []) + Reissued(ss[1..], turn)
  }

  function InVain(ss: seq<Signal>, turn: Signal -> Answer): seq<Signal> {
    if ss == [] then []
    else (if IsReplayed(ss[0]) && !turn(ss[0]).Started? then [ss[0]] else []) + InVain(ss[1..], turn)
  }

  function WithRuns(status: map<nat, Status>, ss: seq<Signal>, turn: Signal -> Answer): map<nat, Status>
    decreases |ss|
  {
    if ss == [] then status
    else WithRuns(if IsReplayed(ss[0]) then WithRun(status, turn(ss[0])) else status, ss[1..], turn)
  }

  function AllReplayed(s: State, i: nat, turn: Signal -> Answer): State
    requires ProcessAt(s, i).Replaying?
  {
    var p := s.processes[i];
    Become(s.(reissued := s.reissued + Reissued(p.held, turn), failed := s.failed + InVain(p.held, turn),
              dropped := s.dropped + NotReplayed(p.held), status := WithRuns(s.status, p.held, turn)),
           i, Replaying(p.run, []))
  }

  /** The protocol's rounds for the signals that a process holds, with the given answers. */
  function Rounds(i: nat, held: seq<Signal>, turn: Signal -> Answer): seq<Step> {
    if held == [] then [] else [Replay(i, turn(held[0]), false, 0)] + Rounds(i, held[1..], turn)
  }

  /** Replaying what has been taken, one signal at a time, sorts the signals by the answers to their turns. */
  lemma {:induction false} ReplaysAll(s: State, i: nat, turn: Signal -> Answer)
    requires ProcessAt(s, i).Replaying?
    ensures Reaches(s, Rounds(i, s.processes[i].held, turn), AllReplayed(s, i, turn))
    decreases |s.processes[i].held|
  {
    hide IsReplayed, WithRun;
    var p := s.processes[i];
    var steps := Rounds(i, p.held, turn);
    if p.held == [] {
      assert s.reissued + [] == s.reissued && s.failed + [] == s.failed && s.dropped + [] == s.dropped;
      assert s.processes[i := Replaying(p.run, [])] == s.processes;
    } else {
      var t := Next(s, steps[0]);
      assert steps[1..] == Rounds(i, p.held[1..], turn);
      ReplaysAll(t, i, turn);
      ReplayedStep(s, p.held, turn);
      assert t.processes[i := Replaying(p.run, [])] == s.processes[i := Replaying(p.run, [])];
    }
  }

  lemma ReplayedStep(s: State, held: seq<Signal>, turn: Signal -> Answer)
    requires held != []
    ensures var t := Issued(s, held[0], turn(held[0]), false);
            && s.reissued + Reissued(held, turn) == t.reissued + Reissued(held[1..], turn)
            && s.failed + InVain(held, turn) == t.failed + InVain(held[1..], turn)
            && s.dropped + NotReplayed(held) == t.dropped + NotReplayed(held[1..])
            && WithRuns(s.status, held, turn) == WithRuns(t.status, held[1..], turn)
  {
    hide IsReplayed;
    Joined(s.reissued, held[0], Reissued(held[1..], turn));
    Joined(s.failed, held[0], InVain(held[1..], turn));
    Joined(s.dropped, held[0], NotReplayed(held[1..]));
  }

  lemma Joined(a: seq<Signal>, x: Signal, b: seq<Signal>)
    ensures a + ([x] + b) == a + [x] + b && a + ([] + b) == a + b
  {
  }

  /** The signals that a list of results says were issued again. */
  function StartedIn(ds: seq<Drained>): seq<Signal> {
    if ds == [] then [] else (if ds[0].run.Started? then [ds[0].signal] else []) + StartedIn(ds[1..])
  }

  /** The signals that it lists without a run. */
  function WithoutRun(ds: seq<Drained>): seq<Signal> {
    if ds == [] then [] else (if ds[0].run.Started? then [] else [ds[0].signal]) + WithoutRun(ds[1..])
  }

  /**
   * What the loop returns tells the outcomes apart: with a run, exactly the signals issued again;
   * without one, the steers issued in vain and those that carried no request.
   */
  lemma {:induction false} ResultsTell(ss: seq<Signal>, turn: Signal -> Answer)
    ensures StartedIn(DrainedOf(ss, turn)) == Reissued(ss, turn)
    ensures forall x :: x in WithoutRun(DrainedOf(ss, turn)) <==>
              x in InVain(ss, turn) || (x in ss && x.kind.Steer? && !x.request)
  {
    if ss != [] {
      ResultsTell(ss[1..], turn);
      var one, rest := DrainedOne(ss[0], turn), DrainedOf(ss[1..], turn);
      if one == [] {
        assert one + rest == rest;
      } else {
        assert (one + rest)[1..] == rest;
      }
      assert ss == [ss[0]] + ss[1..];
    }
  }

  // ---------------------------------------------------------------------------
  // In which order
  // ---------------------------------------------------------------------------

  /** The number of the run's rows among the first `k`. */
  function OwnBefore(rows: seq<Row>, run: nat, k: nat): nat
    requires k <= |rows|
  {
    if k == 0 then 0 else OwnBefore(rows, run, k - 1) + if rows[k - 1].run == run then 1 else 0
  }

  lemma {:induction false} OwnBehindFirst(rows: seq<Row>, run: nat, k: nat)
    requires k < |rows|
    ensures OwnBefore(rows, run, k + 1) == (if rows[0].run == run then 1 else 0) + OwnBefore(rows[1..], run, k)
  {
    if k > 0 {
      OwnBehindFirst(rows, run, k - 1);
    } else {
      assert OwnBefore(rows, run, 0) == 0;
    }
  }

  /** The signal that is taken at place `a` is that of the run's row with `a` of the run's rows in front of it. */
  lemma {:induction false} TakenAt(rows: seq<Row>, run: nat, a: nat) returns (k: nat)
    requires a < |SignalsOf(rows, run)|
    ensures k < |rows| && rows[k] == Row(run, SignalsOf(rows, run)[a]) && OwnBefore(rows, run, k) == a
  {
    if rows[0].run == run && a == 0 {
      k := 0;
    } else {
      k := TakenAt(rows[1..], run, if rows[0].run == run then a - 1 else a);
      OwnBehindFirst(rows, run, k);
      k := k + 1;
    }
  }

  /** A row that is kept at place `a` has `a` rows of other runs in front of it. */
  lemma {:induction false} KeptAt(rows: seq<Row>, run: nat, a: nat) returns (k: nat)
    requires a < |RowsNotOf(rows, run)|
    ensures k < |rows| && rows[k] == RowsNotOf(rows, run)[a] && rows[k].run != run && k - OwnBefore(rows, run, k) == a
  {
    if rows[0].run != run && a == 0 {
      k := 0;
    } else {
      k := KeptAt(rows[1..], run, if rows[0].run == run then a else a - 1);
      OwnBehindFirst(rows, run, k);
      k := k + 1;
    }
  }

  /** As many signals are taken as the run has rows, and the others are kept. */
  lemma {:induction false} AllTaken(rows: seq<Row>, run: nat)
    ensures |SignalsOf(rows, run)| == OwnBefore(rows, run, |rows|)
    ensures |RowsNotOf(rows, run)| + OwnBefore(rows, run, |rows|) == |rows|
  {
    if rows != [] {
      AllTaken(rows[1..], run);
      OwnBehindFirst(rows, run, |rows| - 1);
    }
  }

  lemma {:induction false} OwnGrows(rows: seq<Row>, run: nat, j: nat, k: nat)
    requires j <= k <= |rows|
    ensures OwnBefore(rows, run, j) <= OwnBefore(rows, run, k)
  {
    if j < k {
      OwnGrows(rows, run, j, k - 1);
    }
  }

  /** The number of steers with a request among the first `k` signals. */
  function RequestsBefore(ss: seq<Signal>, k: nat): nat
    requires k <= |ss|
  {
    if k == 0 then 0
    else RequestsBefore(ss, k - 1) + if ss[k - 1].kind == Steer && ss[k - 1].request then 1 else 0
  }

  lemma {:induction false} RequestsBehindFirst(ss: seq<Signal>, k: nat)
    requires k < |ss|
    ensures RequestsBefore(ss, k + 1) == (if ss[0].kind == Steer && ss[0].request then 1 else 0) + RequestsBefore(ss[1..], k)
  {
    if k > 0 {
      RequestsBehindFirst(ss, k - 1);
    } else {
      assert RequestsBefore(ss, 0) == 0;
    }
  }

  /** The request that is issued at place `a` is that of the steer with `a` such steers in front of it. */
  lemma {:induction false} IssuedAt(ss: seq<Signal>, a: nat) returns (k: nat)
    requires a < |Replayed(ss)|
    ensures k < |ss| && ss[k] == Replayed(ss)[a] && ss[k].kind == Steer && ss[k].request && RequestsBefore(ss, k) == a
  {
    var first := IsReplayed(ss[0]);
    if first && a == 0 {
      k := 0;
    } else {
      k := IssuedAt(ss[1..], if first then a - 1 else a);
      RequestsBehindFirst(ss, k);
      k := k + 1;
    }
  }

  lemma {:induction false} AllIssued(ss: seq<Signal>)
    ensures |Replayed(ss)| == RequestsBefore(ss, |ss|)
  {
    if ss != [] {
      AllIssued(ss[1..]);
      RequestsBehindFirst(ss, |ss| - 1);
    }
  }

  lemma {:induction false} RequestsGrow(ss: seq<Signal>, j: nat, k: nat)
    requires j <= k <= |ss|
    ensures RequestsBefore(ss, j) <= RequestsBefore(ss, k)
  {
    if j < k {
      RequestsGrow(ss, j, k - 1);
    }
  }

  /** The number of signals but aborts among the first `k`. */
  function SteersBefore(ss: seq<Signal>, k: nat): nat
    requires k <= |ss|
  {
    if k == 0 then 0 else SteersBefore(ss, k - 1) + if ss[k - 1].kind != Abort then 1 else 0
  }

  lemma {:induction false} SteersBehindFirst(ss: seq<Signal>, k: nat)
    requires k < |ss|
    ensures SteersBefore(ss, k + 1) == (if ss[0].kind != Abort then 1 else 0) + SteersBefore(ss[1..], k)
  {
    if k > 0 {
      SteersBehindFirst(ss, k - 1);
    } else {
      assert SteersBefore(ss, 0) == 0;
    }
  }

  /** The entry at place `a` is of the steer with `a` steers in front of it, with the run that its turn gave, if any. */
  lemma {:induction false} ListedAt(ss: seq<Signal>, turn: Signal -> Answer, a: nat) returns (k: nat)
    requires a < |DrainedOf(ss, turn)|
    ensures k < |ss| && ss[k].kind != Abort && SteersBefore(ss, k) == a && DrainedOf(ss, turn)[a].signal == ss[k]
    ensures DrainedOf(ss, turn)[a].run == if ss[k].request && turn(ss[k]).Started? then turn(ss[k]) else NoRun
  {
    if ss[0].kind != Abort && a == 0 {
      k := 0;
    } else {
      k := ListedAt(ss[1..], turn, if ss[0].kind != Abort then a - 1 else a);
      SteersBehindFirst(ss, k);
      k := k + 1;
    }
  }

  lemma {:induction false} AllListed(ss: seq<Signal>, turn: Signal -> Answer)
    ensures |DrainedOf(ss, turn)| == SteersBefore(ss, |ss|)
  {
    if ss != [] {
      AllListed(ss[1..], turn);
      SteersBehindFirst(ss, |ss| - 1);
    }
  }

  lemma {:induction false} SteersGrow(ss: seq<Signal>, j: nat, k: nat)
    requires j <= k <= |ss|
    ensures SteersBefore(ss, j) <= SteersBefore(ss, k)
  {
    if j < k {
      SteersGrow(ss, j, k - 1);
    }
  }

  ghost predicate AscendsIn(ss: seq<Signal>) {
    forall a, b :: 0 <= a < b < |ss| ==> ss[a].id < ss[b].id
  }

  /** The run's signals were begun in the order in which they were sent. */
  ghost predicate SentInOrder(rows: seq<Row>, run: nat) {
    forall a, b :: 0 <= a < b < |rows| && rows[a].run == run && rows[b].run == run ==> rows[a].signal.id < rows[b].signal.id
  }

  /**
   * Signals of a run that wait in the order in which they were begun are taken in that order, their
   * requests are issued in that order, and the result lists them in it.
   */
  lemma ReplaysInOrder(rows: seq<Row>, run: nat, turn: Signal -> Answer)
    requires SentInOrder(rows, run)
    ensures var taken := SignalsOf(rows, run);
            && AscendsIn(taken) && AscendsIn(Replayed(taken))
            && forall a, b :: 0 <= a < b < |DrainedOf(taken, turn)| ==>
                 DrainedOf(taken, turn)[a].signal.id < DrainedOf(taken, turn)[b].signal.id
  {
    hide SignalsOf, Replayed, DrainedOf, OwnBefore, RequestsBefore, SteersBefore;
    TakenAscend(rows, run);
    IssuedAscend(SignalsOf(rows, run));
    ListedAscend(SignalsOf(rows, run), turn);
  }

  lemma TakenAscend(rows: seq<Row>, run: nat)
    requires SentInOrder(rows, run)
    ensures AscendsIn(SignalsOf(rows, run))
  {
    hide SignalsOf, OwnBefore;
    var taken := SignalsOf(rows, run);
    forall a, b | 0 <= a < b < |taken| ensures taken[a].id < taken[b].id {
      var j := TakenAt(rows, run, a);
      var k := TakenAt(rows, run, b);
      if k <= j {
        OwnGrows(rows, run, k, j);
      }
    }
  }

  lemma IssuedAscend(ss: seq<Signal>)
    requires AscendsIn(ss)
    ensures AscendsIn(Replayed(ss))
  {
    hide Replayed, RequestsBefore;
    forall a, b | 0 <= a < b < |Replayed(ss)| ensures Replayed(ss)[a].id < Replayed(ss)[b].id {
      var j := IssuedAt(ss, a);
      var k := IssuedAt(ss, b);
      if k <= j {
        RequestsGrow(ss, k, j);
      }
    }
  }

  lemma ListedAscend(ss: seq<Signal>, turn: Signal -> Answer)
    requires AscendsIn(ss)
    ensures var ds := DrainedOf(ss, turn); forall a, b :: 0 <= a < b < |ds| ==> ds[a].signal.id < ds[b].signal.id
  {
    hide DrainedOf, SteersBefore;
    var ds := DrainedOf(ss, turn);
    forall a, b | 0 <= a < b < |ds| ensures ds[a].signal.id < ds[b].signal.id {
      var j := ListedAt(ss, turn, a);
      var k := ListedAt(ss, turn, b);
      if k <= j {
        SteersGrow(ss, k, j);
      }
    }
  }
}
