// The deploy lease: one stored item that is put, extended and deleted by conditional writes.

module DeployLease {
  import opened Results

  const LEASE_SECONDS: nat := 3600

  datatype Item = Item(holder: nat, expiresAt: nat)

  // ---------------------------------------------------------------------------
  // Conditional writes
  // ---------------------------------------------------------------------------

  /** `attribute_not_exists(lockKey) OR expiresAt < :now`. */
  predicate IsFree(item: Option<Item>, now: nat) {
    item.None? || item.value.expiresAt < now
  }

  /** `holder = :holder`. */
  predicate Names(item: Option<Item>, holder: nat) {
    item.Some? && item.value.holder == holder
  }

  function AfterPut(item: Option<Item>, holder: nat, now: nat): Option<Item> {
    if IsFree(item, now) then Some(Item(holder, now + LEASE_SECONDS)) else item
  }

  function AfterUpdate(item: Option<Item>, holder: nat, now: nat): Option<Item> {
    if Names(item, holder) then Some(Item(holder, now + LEASE_SECONDS)) else item
  }

  function AfterDelete(item: Option<Item>, holder: nat): Option<Item> {
    if Names(item, holder) then None else item
  }

  /** What becomes of a request: it and its answer arrive, its answer is lost, or the request is. */
  datatype Delivery = Answered | AnswerLost | RequestLost

  /** What the caller of a conditional write sees. */
  datatype Answer = Written | ConditionFailed | CallFailed

  function AnswerFor(held: bool, d: Delivery): Answer {
    if !d.Answered? then CallFailed else if held then Written else ConditionFailed
  }

  class Table {
    var item: Option<Item>

    constructor ()
      ensures item == None
    {
      item := None;
    }

    method PutItem(holder: nat, now: nat, d: Delivery) returns (a: Answer)
      modifies this
      ensures item ==
              if d != RequestLost && (old(item).None? || old(item).value.expiresAt < now)
              then Some(Item(holder, now + 3600)) else old(item)
      ensures a ==
              if d != Answered then CallFailed
              else if old(item).None? || old(item).value.expiresAt < now then Written else ConditionFailed
    {
      var free := IsFree(item, now);
      if !d.RequestLost? && free {
        item := Some(Item(holder, now + LEASE_SECONDS));
      }
      a := AnswerFor(free, d);
    }

    method UpdateItem(holder: nat, now: nat, d: Delivery) returns (a: Answer)
      modifies this
      ensures item ==
              if d != RequestLost && old(item).Some? && old(item).value.holder == holder
              then Some(Item(holder, now + 3600)) else old(item)
      ensures a ==
              if d != Answered then CallFailed
              else if old(item).Some? && old(item).value.holder == holder then Written else ConditionFailed
    {
      var named := Names(item, holder);
      if !d.RequestLost? && named {
        item := Some(item.value.(expiresAt := now + LEASE_SECONDS));
      }
      a := AnswerFor(named, d);
    }

    method DeleteItem(holder: nat, d: Delivery) returns (a: Answer)
      modifies this
      ensures item ==
              if d != RequestLost && old(item).Some? && old(item).value.holder == holder then None else old(item)
      ensures a ==
              if d != Answered then CallFailed
              else if old(item).Some? && old(item).value.holder == holder then Written else ConditionFailed
    {
      var named := Names(item, holder);
      if !d.RequestLost? && named {
        item := None;
      }
      a := AnswerFor(named, d);
    }
  }

  /** A process's lease; `renews` says whether its renew timer is set. */
  class Lease {
    const holder: nat
    var renews: bool

    constructor (holder: nat)
      ensures this.holder == holder && renews
    {
      this.holder := holder;
      renews := true;
    }
  }

  /** Takes the lease if it is free; a lease object is returned exactly when the write is confirmed. */
  method AcquireAwsLease(table: Table, holder: nat, now: nat, d: Delivery) returns (lease: Option<Lease>)
    modifies table
    ensures table.item ==
            if d != RequestLost && (old(table.item).None? || old(table.item).value.expiresAt < now)
            then Some(Item(holder, now + 3600)) else old(table.item)
    ensures lease.Some? <==> d == Answered && (old(table.item).None? || old(table.item).value.expiresAt < now)
    ensures lease.Some? ==> fresh(lease.value) && lease.value.holder == holder && lease.value.renews
  {
    var a := table.PutItem(holder, now, d);
    if a != Written {
      return None;
    }
    var l := new Lease(holder);
    lease := Some(l);
  }

  /** Extends the lease; the timer is cleared exactly when the item is known to name somebody else. */
  method RenewAwsLease(table: Table, lease: Lease, now: nat, d: Delivery)
    modifies table, lease
    ensures table.item ==
            if d != RequestLost && old(table.item).Some? && old(table.item).value.holder == lease.holder
            then Some(Item(lease.holder, now + 3600)) else old(table.item)
    ensures lease.renews ==
            (old(lease.renews)
             && (d == Answered ==> old(table.item).Some? && old(table.item).value.holder == lease.holder))
  {
    var a := table.UpdateItem(lease.holder, now, d);
    if a == ConditionFailed {
      lease.renews := false;
    }
  }

  /** Clears the timer and deletes the item if it still names the holder. */
  method ReleaseAwsLease(table: Table, lease: Lease, d: Delivery)
    modifies table, lease
    ensures table.item ==
            if d != RequestLost && old(table.item).Some? && old(table.item).value.holder == lease.holder
            then None else old(table.item)
    ensures !lease.renews
  {
    lease.renews := false;
    var a := table.DeleteItem(lease.holder, d);
  }

  // ---------------------------------------------------------------------------
  // Concurrent processes
  // ---------------------------------------------------------------------------

  /** A process; its index is its holder name. Stamps are read when a request is sent. */
  datatype Process =
    | Acquiring(stamp: nat)               // the put is under way
    | Holding(since: nat)                 // holds by a confirmed write stamped `since`
    | Renewing(since: nat, stamp: nat)    // an update is under way
    | Releasing                           // the delete is under way
    | Ousted                              // has been told that the item names somebody else
    | Gone                                // has failed, released or crashed

  datatype State = State(now: nat, item: Option<Item>, processes: seq<Process>)

  datatype Step =
    | Tick
    | Expire
    | StartAcquire
    | Put(i: nat, d: Delivery)
    | StartRenew(i: nat)
    | Update(i: nat, d: Delivery)
    | StartRelease(i: nat)
    | Delete(i: nat, d: Delivery)
    | Crash(i: nat)

  function ProcessAt(s: State, i: nat): Process {
    if i < |s.processes| then s.processes[i] else Gone
  }

  predicate Enabled(s: State, step: Step) {
    match step
    case Tick => true
    case Expire => s.item.Some? && s.item.value.expiresAt < s.now
    case StartAcquire => true
    case Put(i, _) => ProcessAt(s, i).Acquiring?
    case StartRenew(i) => ProcessAt(s, i).Holding?
    case Update(i, _) => ProcessAt(s, i).Renewing?
    case StartRelease(i) => ProcessAt(s, i).Holding? || ProcessAt(s, i).Ousted?
    case Delete(i, _) => ProcessAt(s, i).Releasing?
    case Crash(i) => i < |s.processes|
  }

  function Become(s: State, i: nat, p: Process): State
    requires i < |s.processes|
  {
    s.(processes := s.processes[i := p])
  }

  /** The table's own expiry may remove an item whose time has passed (Expire). */
  function Next(s: State, step: Step): State
    requires Enabled(s, step)
  {
    match step
    case Tick => s.(now := s.now + 1)
    case Expire => s.(item := None)
    case StartAcquire => s.(processes := s.processes + [Acquiring(s.now)])
    case Put(i, d) =>
      var t := s.processes[i].stamp;
      Become(s.(item := if d.RequestLost? then s.item else AfterPut(s.item, i, t)), i,
             if AnswerFor(IsFree(s.item, t), d).Written? then Holding(t) else Gone)
    case StartRenew(i) => Become(s, i, Renewing(s.processes[i].since, s.now))
    case Update(i, d) =>
      var p := s.processes[i];
      Become(s.(item := if d.RequestLost? then s.item else AfterUpdate(s.item, i, p.stamp)), i,
             match AnswerFor(Names(s.item, i), d)
             case Written => Holding(p.stamp)
             case ConditionFailed => Ousted
             case CallFailed => Holding(p.since))
    case StartRelease(i) => Become(s, i, Releasing)
    case Delete(i, d) => Become(s.(item := if d.RequestLost? then s.item else AfterDelete(s.item, i)), i, Gone)
    case Crash(i) => Become(s, i, Gone)
  }

  function Run(s: State, steps: seq<Step>): (State, bool)
    decreases |steps|
  {
    if steps == [] then (s, true)
    else if Enabled(s, steps[0]) then Run(Next(s, steps[0]), steps[1..])
    else (s, false)
  }

  predicate Reaches(s: State, steps: seq<Step>, t: State) {
    Run(s, steps) == (t, true)
  }

  predicate Init(s: State) {
    s.item == None && s.processes == []
  }

  /** The process is inside the window of its last confirmed write. */
  predicate InWindow(s: State, i: nat) {
    var p := ProcessAt(s, i);
    (p.Holding? || p.Renewing?) && s.now <= p.since + LEASE_SECONDS
  }

  predicate StampsPast(p: Process, now: nat) {
    match p
    case Acquiring(t) => t <= now
    case Holding(t) => t <= now
    case Renewing(t, u) => t <= u <= now
    case _ => true
  }

  /** The item names a process that is inside its window, and for at least as long. */
  predicate Named(s: State, i: nat) {
    InWindow(s, i) ==> Names(s.item, i) && ProcessAt(s, i).since + LEASE_SECONDS <= s.item.value.expiresAt
  }

  ghost predicate Invariant(s: State) {
    && (forall i :: 0 <= i < |s.processes| ==> StampsPast(s.processes[i], s.now))
    && (forall i: nat :: Named(s, i))
  }

  lemma StampsStay(s: State, step: Step, i: nat)
    requires Invariant(s) && Enabled(s, step) && i < |Next(s, step).processes|
    ensures StampsPast(Next(s, step).processes[i], Next(s, step).now)
  {
    if i < |s.processes| {
      assert StampsPast(s.processes[i], s.now);
    }
  }

  /** A put succeeds only when every other process's window has passed. */
  lemma NamedStays(s: State, step: Step, i: nat)
    requires Invariant(s) && Enabled(s, step)
    ensures Named(Next(s, step), i)
  {
    assert Named(s, i);
    if i < |s.processes| {
      assert StampsPast(s.processes[i], s.now);
    }
    match step {
      case Put(j, d) =>
        assert StampsPast(s.processes[j], s.now);
      case Update(j, d) =>
        assert Named(s, j) && StampsPast(s.processes[j], s.now);
      case _ =>
    }
  }

  lemma KeepsInvariant(s: State, step: Step)
    requires Invariant(s) && Enabled(s, step)
    ensures Invariant(Next(s, step))
  {
    hide Invariant, Next, Enabled, Named, StampsPast;
    var t := Next(s, step);
    forall i | 0 <= i < |t.processes| ensures StampsPast(t.processes[i], t.now) {
      StampsStay(s, step, i);
    }
    forall i: nat ensures Named(t, i) {
      NamedStays(s, step, i);
    }
    IsInvariant(t);
  }

  lemma IsInvariant(t: State)
    requires forall i :: 0 <= i < |t.processes| ==> StampsPast(t.processes[i], t.now)
    requires forall i: nat :: Named(t, i)
    ensures Invariant(t)
  {
  }

  lemma {:induction false} RunsKeepInvariant(s: State, steps: seq<Step>, t: State)
    requires Invariant(s) && Reaches(s, steps, t)
    ensures Invariant(t)
    decreases |steps|
  {
    hide Invariant, Next, Enabled;
    if steps != [] {
      KeepsInvariant(s, steps[0]);
      RunsKeepInvariant(Next(s, steps[0]), steps[1..], t);
    }
  }

  /**
   * From a confirmed acquire or renew stamped t until the process starts to release or t + 3600
   * seconds have passed, the item names the process; so no two processes are inside their windows
   * at once, and while one is, no other process's write can take the item from it.
   */
  lemma OneHolder(s: State, steps: seq<Step>, t: State, i: nat, j: nat)
    requires Init(s) && Reaches(s, steps, t) && InWindow(t, i)
    ensures Names(t.item, i) && ProcessAt(t, i).since + LEASE_SECONDS <= t.item.value.expiresAt
    ensures InWindow(t, j) ==> i == j
  {
    RunsKeepInvariant(s, steps, t);
    assert Named(t, i) && Named(t, j);
  }

  /** Whatever another process does, and whatever is lost on the way, the item keeps naming the holder. */
  lemma OthersCannotTake(s: State, steps: seq<Step>, t: State, i: nat, step: Step)
    requires Init(s) && Reaches(s, steps, t) && InWindow(t, i) && Enabled(t, step)
    requires match step
             case Put(j, _) => j != i
             case Update(j, _) => j != i
             case Delete(j, _) => j != i
             case Expire => true
             case _ => false
    ensures Next(t, step).item == t.item
  {
    RunsKeepInvariant(s, steps, t);
    assert Named(t, i);
    if step.Put? {
      assert StampsPast(t.processes[step.i], t.now);
    }
  }

  /** No step is a write of the process: neither a renewal nor a release. */
  predicate NoWriteOf(steps: seq<Step>, j: nat) {
    forall k :: 0 <= k < |steps| ==>
      match steps[k] case Update(i, _) => i != j case Delete(i, _) => i != j case _ => true
  }

  predicate NoAcquire(steps: seq<Step>) {
    forall k :: 0 <= k < |steps| ==> !steps[k].Put?
  }

  lemma ItemStaysNow(s: State, step: Step, j: nat)
    requires Invariant(s) && Enabled(s, step) && Names(s.item, j) && Next(s, step).now <= s.item.value.expiresAt
    requires NoWriteOf([step], j)
    ensures Next(s, step).item == s.item
  {
    assert NoWriteOf([step], j) ==> match [step][0] case Update(i, _) => i != j case Delete(i, _) => i != j case _ => true;
    if step.Put? {
      assert StampsPast(s.processes[step.i], s.now);
    }
  }

  lemma ClockRuns(s: State, steps: seq<Step>, t: State)
    requires Reaches(s, steps, t)
    ensures s.now <= t.now
    decreases |steps|
  {
    if steps != [] {
      ClockRuns(Next(s, steps[0]), steps[1..], t);
    }
  }

  /**
   * Until its time has passed or its holder writes itself, an item stays as it is, whatever requests
   * of former holders, of others that acquire and of the table's expiry come in between.
   */
  lemma {:induction false} ItemStays(s: State, steps: seq<Step>, t: State, j: nat)
    requires Invariant(s) && Names(s.item, j) && Reaches(s, steps, t)
    requires NoWriteOf(steps, j) && t.now <= s.item.value.expiresAt
    ensures t.item == s.item
    decreases |steps|
  {
    hide Invariant, Next, Enabled;
    if steps != [] {
      var u := Next(s, steps[0]);
      ClockRuns(u, steps[1..], t);
      assert NoWriteOf([steps[0]], j);
      ItemStaysNow(s, steps[0], j);
      KeepsInvariant(s, steps[0]);
      ItemStays(u, steps[1..], t, j);
    }
  }

  /** The same for every state that can be reached. */
  lemma SuccessorKeepsItem(s0: State, before: seq<Step>, s: State, steps: seq<Step>, t: State, j: nat)
    requires Init(s0) && Reaches(s0, before, s) && Names(s.item, j) && Reaches(s, steps, t)
    requires NoWriteOf(steps, j) && t.now <= s.item.value.expiresAt
    ensures t.item == s.item
  {
    hide Reaches;
    RunsKeepInvariant(s0, before, s);
    ItemStays(s, steps, t, j);
  }

  /**
   * Once there is no item, none appears until some put arrives; the first that does succeeds, and is
   * confirmed if it is answered.
   */
  lemma {:induction false} FreeUntilTaken(s: State, steps: seq<Step>, t: State, n: nat, d: Delivery)
    requires s.item == None && Reaches(s, steps, t) && NoAcquire(steps) && Enabled(t, Put(n, d))
    ensures var u := Next(t, Put(n, d));
            && t.item == None
            && (u.item.Some? <==> !d.RequestLost?) && (u.item.Some? ==> Names(u.item, n))
            && (ProcessAt(u, n).Holding? <==> d.Answered?)
    decreases |steps|
  {
    if steps != [] {
      FreeUntilTaken(Next(s, steps[0]), steps[1..], t, n, d);
    }
  }

  // ---------------------------------------------------------------------------
  // What the writes come to
  // ---------------------------------------------------------------------------

  /** A put that arrives takes the item exactly if there is none or its time lies in front of the put's stamp. */
  lemma PutTakesExactly(s: State, n: nat, d: Delivery)
    requires Enabled(s, Put(n, d))
    ensures var stamp, u := s.processes[n].stamp, Next(s, Put(n, d));
            var free := s.item.None? || s.item.value.expiresAt < stamp;
            && u.item == (if free && d != RequestLost then Some(Item(n, stamp + 3600)) else s.item)
            && ProcessAt(u, n) == (if free && d == Answered then Holding(stamp) else Gone)
  {
  }

  /**
   * An update that arrives extends the item exactly if it names the process, which learns of it by the
   * answer; only the answer that it does not name the process ousts it.
   */
  lemma UpdateExtendsExactly(s: State, n: nat, d: Delivery)
    requires Enabled(s, Update(n, d))
    ensures var p, u := s.processes[n], Next(s, Update(n, d));
            var named := s.item.Some? && s.item.value.holder == n;
            && u.item == (if named && d != RequestLost then Some(Item(n, p.stamp + 3600)) else s.item)
            && ProcessAt(u, n) ==
               (if d != Answered then Holding(p.since) else if named then Holding(p.stamp) else Ousted)
  {
  }

  /** A delete that arrives removes the item exactly if it names the process. */
  lemma DeleteRemovesExactly(s: State, n: nat, d: Delivery)
    requires Enabled(s, Delete(n, d))
    ensures var u := Next(s, Delete(n, d));
            && u.item == (if s.item.Some? && s.item.value.holder == n && d != RequestLost then None else s.item)
            && ProcessAt(u, n) == Gone
  {
  }

  lemma {:induction false} ItemStaysOrExpires(s: State, steps: seq<Step>, t: State, item: Item)
    requires s.item == Some(item) || s.item == None
    requires Reaches(s, steps, t) && NoAcquire(steps) && NoWriteOf(steps, item.holder)
    ensures t.item == Some(item) || t.item == None
    decreases |steps|
  {
    if steps != [] {
      ItemStaysOrExpires(Next(s, steps[0]), steps[1..], t, item);
    }
  }

  /**
   * A lease that its holder no longer renews, because it has crashed or is ousted, does not last: the
   * next process that asks for it behind its time takes it if its put arrives, and holds if it is answered.
   */
  lemma LeftLeaseIsTaken(s: State, steps: seq<Step>, t: State, d: Delivery)
    requires s.item.Some? && Reaches(s, steps, t) && NoAcquire(steps) && NoWriteOf(steps, s.item.value.holder)
    requires t.now > s.item.value.expiresAt
    ensures var n := |t.processes|;
            && Enabled(t, StartAcquire) && Enabled(Next(t, StartAcquire), Put(n, d))
            && var u := Next(Next(t, StartAcquire), Put(n, d));
            && (u.item == Some(Item(n, t.now + 3600)) <==> d != RequestLost)
            && (ProcessAt(u, n) == Holding(t.now) <==> d == Answered)
            && (d == Answered ==> InWindow(u, n))
  {
    hide Reaches;
    ItemStaysOrExpires(s, steps, t, s.item.value);
    var n := |t.processes|;
    PutTakesExactly(Next(t, StartAcquire), n, d);
  }

  /**
   * In every reachable state, a renewal of a process inside its window extends the item if it arrives,
   * and the process goes on holding, from the new stamp if it is answered.
   */
  lemma HolderRenews(s: State, steps: seq<Step>, t: State, i: nat, d: Delivery)
    requires Init(s) && Reaches(s, steps, t) && InWindow(t, i) && ProcessAt(t, i).Renewing?
    ensures var p, u := t.processes[i], Next(t, Update(i, d));
            && u.item == (if d == RequestLost then t.item else Some(Item(i, p.stamp + 3600)))
            && ProcessAt(u, i) == Holding(if d == Answered then p.stamp else p.since) && InWindow(u, i)
  {
    hide Reaches, Invariant;
    OneHolder(s, steps, t, i, i);
    UpdateExtendsExactly(t, i, d);
    StartsWell(s);
    RunsKeepInvariant(s, steps, t);
    StampsAre(t, i);
  }

  lemma StartsWell(s: State)
    requires Init(s)
    ensures Invariant(s)
  {
  }

  lemma StampsAre(s: State, i: nat)
    requires Invariant(s) && ProcessAt(s, i).Renewing?
    ensures ProcessAt(s, i).since <= ProcessAt(s, i).stamp <= s.now
  {
    assert StampsPast(s.processes[i], s.now);
  }

  /**
   * A release that arrives frees the item if it still names the process, for the first put that arrives
   * behind it; otherwise it changes nothing.
   */
  lemma ReleaseFrees(s: State, i: nat, d: Delivery, steps: seq<Step>, t: State, n: nat, e: Delivery)
    requires Enabled(s, Delete(i, d)) && d != RequestLost
    requires Reaches(Next(s, Delete(i, d)), steps, t) && NoAcquire(steps) && Enabled(t, Put(n, e))
    ensures !Names(s.item, i) ==> Next(s, Delete(i, d)).item == s.item
    ensures Names(s.item, i) ==>
              var u := Next(t, Put(n, e));
              (u.item.Some? <==> e != RequestLost) && (u.item.Some? ==> Names(u.item, n))
              && (ProcessAt(u, n).Holding? <==> e == Answered)
  {
    hide Reaches;
    DeleteRemovesExactly(s, i, d);
    if Names(s.item, i) {
      FreeUntilTaken(Next(s, Delete(i, d)), steps, t, n, e);
    }
  }
}
