// Attribution of turns to users, and the retention figures computed from them.

module Retention {

  type Id = nat
  const DAY: nat := 86_400_000

  datatype Window = Window(session: Id, principal: Id)
  datatype Turn = Turn(session: Id, principal: Id, day: int, turns: nat)

  // ---------------------------------------------------------------------------
  // Attribution
  // ---------------------------------------------------------------------------

  function WindowsOf(ws: seq<Window>, session: Id): seq<Window> {
    if ws == [] then [] else (if ws[0].session == session then [ws[0]] else []) + WindowsOf(ws[1..], session)
  }

  ghost predicate IsGrouping(m: map<Id, seq<Window>>, ws: seq<Window>) {
    forall s: Id :: (if s in m then m[s] else []) == WindowsOf(ws, s)
  }

  lemma {:induction false} WindowsAppend(ws: seq<Window>, w: Window, session: Id)
    ensures WindowsOf(ws + [w], session) == WindowsOf(ws, session) + if w.session == session then [w] else []
  {
    hide WindowsOf;
    NoWindows();
    if ws == [] {
      assert ws + [w] == [w] + [];
      WindowsCons(w, [], session);
    } else {
      assert ws == [ws[0]] + ws[1..] && ws + [w] == [ws[0]] + (ws[1..] + [w]);
      WindowsCons(ws[0], ws[1..], session);
      WindowsCons(ws[0], ws[1..] + [w], session);
      WindowsAppend(ws[1..], w, session);
    }
  }

  lemma WindowsCons(w: Window, ws: seq<Window>, session: Id)
    ensures WindowsOf([w] + ws, session) == (if w.session == session then [w] else []) + WindowsOf(ws, session)
  {
    assert ([w] + ws)[1..] == ws;
  }

  method GroupWindowsBySession(participants: seq<Window>) returns (m: map<Id, seq<Window>>)
    ensures IsGrouping(m, participants)
  {
    hide WindowsOf;
    m := map[];
    NoWindows();
    for i := 0 to |participants|
      invariant IsGrouping(m, participants[..i])
    {
      var w := participants[i];
      assert participants[..i + 1] == participants[..i] + [w];
      ghost var before := m;
      m := m[w.session := (if w.session in m then m[w.session] + [w] else [w])];
      forall s: Id ensures (if s in m then m[s] else []) == WindowsOf(participants[..i + 1], s) {
        WindowsAppend(participants[..i], w, s);
        assert (if s in before then before[s] else []) == WindowsOf(participants[..i], s);
      }
    }
    assert participants[..|participants|] == participants;
  }

  lemma NoWindows()
    ensures forall s: Id :: WindowsOf([], s) == []
  {
  }

  /** The turn's author has a window in its session, which is one of the allowed ones. */
  predicate IsCredited(ws: seq<Window>, allowed: seq<Id>, t: Turn) {
    t.session in allowed && Window(t.session, t.principal) in ws
  }

  function Credited(ws: seq<Window>, allowed: seq<Id>, ts: seq<Turn>): seq<Turn> {
    if ts == [] then [] else (if IsCredited(ws, allowed, ts[0]) then [ts[0]] else []) + Credited(ws, allowed, ts[1..])
  }

  /**
   * What the visitors have gathered. `users` lists the keys of `days` in the order in which they
   * were added.
   */
  datatype Tally = Tally(
    users: seq<Id>, days: map<Id, set<int>>, turns: map<Id, nat>, sessions: map<Id, set<Id>>)

  const NOTHING: Tally := Tally([], map[], map[], map[])

  function Days(t: Tally, u: Id): set<int> {
    if u in t.days then t.days[u] else {}
  }

  function TurnsOf(t: Tally, u: Id): nat {
    if u in t.turns then t.turns[u] else 0
  }

  function SessionsOf(t: Tally, u: Id): set<Id> {
    if u in t.sessions then t.sessions[u] else {}
  }

  function OnWindow(t: Tally, session: Id, w: Window): Tally {
    t.(sessions := t.sessions[w.principal := SessionsOf(t, w.principal) + {session}])
  }

  function OnTurn(t: Tally, turn: Turn): Tally {
    var u := turn.principal;
    t.(users := if u in t.days then t.users else t.users + [u],
       days := t.days[u := Days(t, u) + {turn.day}],
       turns := t.turns[u := TurnsOf(t, u) + turn.turns])
  }

  function OnWindows(t: Tally, session: Id, ws: seq<Window>): Tally
    decreases |ws|
  {
    if ws == [] then t else OnWindows(OnWindow(t, session, ws[0]), session, ws[1..])
  }

  function OnSessions(t: Tally, ws: seq<Window>, sessions: seq<Id>): Tally
    decreases |sessions|
  {
    if sessions == [] then t
    else OnSessions(OnWindows(t, sessions[0], WindowsOf(ws, sessions[0])), ws, sessions[1..])
  }

  function OnTurns(t: Tally, ts: seq<Turn>): Tally
    decreases |ts|
  {
    if ts == [] then t else OnTurns(OnTurn(t, ts[0]), ts[1..])
  }

  function Gathered(ws: seq<Window>, ts: seq<Turn>, allowed: seq<Id>): Tally {
    OnTurns(OnSessions(NOTHING, ws, allowed), Credited(ws, allowed, ts))
  }

  predicate HasPrincipal(ws: seq<Window>, principal: Id) {
    exists k :: 0 <= k < |ws| && ws[k].principal == principal
  }

  method FindWindow(ws: seq<Window>, principal: Id) returns (found: bool)
    ensures found <==> HasPrincipal(ws, principal)
  {
    for i := 0 to |ws|
      invariant forall k :: 0 <= k < i ==> ws[k].principal != principal
    {
      if ws[i].principal == principal {
        return true;
      }
    }
    return false;
  }

  lemma {:induction false} WindowsAre(ws: seq<Window>, session: Id)
    ensures forall w :: w in WindowsOf(ws, session) <==> w in ws && w.session == session
  {
    if ws != [] {
      WindowsAre(ws[1..], session);
      assert ws == [ws[0]] + ws[1..];
    }
  }

  lemma WindowFound(ws: seq<Window>, allowed: seq<Id>, t: Turn)
    requires t.session in allowed
    ensures IsCredited(ws, allowed, t) <==> HasPrincipal(WindowsOf(ws, t.session), t.principal)
  {
    var own, w := WindowsOf(ws, t.session), Window(t.session, t.principal);
    WindowsAre(ws, t.session);
    forall k | 0 <= k < |own| && own[k].principal == t.principal ensures w in ws {
      assert own[k] in own && own[k] == w;
    }
    if w in ws {
      assert w in own;
      var j :| 0 <= j < |own| && own[j] == w;
      assert own[j].principal == t.principal;
      assert HasPrincipal(own, t.principal);
    }
  }

  /** Visits every window of the allowed sessions, then every turn whose author has one of these. */
  method ForEachAttributedTurn(participants: seq<Window>, turns: seq<Turn>, allowed: seq<Id>) returns (t: Tally)
    ensures t == Gathered(participants, turns, allowed)
  {
    hide WindowsOf, IsCredited, OnWindow, OnTurn, IsGrouping;
    var bySession := GroupWindowsBySession(participants);
    t := NOTHING;
    for i := 0 to |allowed|
      invariant OnSessions(t, participants, allowed[i..]) == OnSessions(NOTHING, participants, allowed)
    {
      assert allowed[i..][0] == allowed[i] && allowed[i..][1..] == allowed[i + 1..];
      Grouped(bySession, participants, allowed[i]);
      var ws := if allowed[i] in bySession then bySession[allowed[i]] else [];
      ghost var before := t;
      for k := 0 to |ws|
        invariant OnWindows(t, allowed[i], ws[k..]) == OnWindows(before, allowed[i], ws)
      {
        assert ws[k..][0] == ws[k] && ws[k..][1..] == ws[k + 1..];
        t := OnWindow(t, allowed[i], ws[k]);
      }
      assert OnWindows(t, allowed[i], ws[|ws|..]) == t;
    }
    assert allowed[|allowed|..] == [] && OnSessions(t, participants, []) == t;
    t := CreditTurns(participants, turns, allowed, bySession, t);
  }

  lemma Grouped(m: map<Id, seq<Window>>, ws: seq<Window>, s: Id)
    requires IsGrouping(m, ws)
    ensures (if s in m then m[s] else []) == WindowsOf(ws, s)
  {
    hide WindowsOf;
  }

  method CreditTurns(participants: seq<Window>, turns: seq<Turn>, allowed: seq<Id>, bySession: map<Id, seq<Window>>,
                     start: Tally)
    returns (t: Tally)
    requires IsGrouping(bySession, participants)
    ensures t == OnTurns(start, Credited(participants, allowed, turns))
  {
    hide WindowsOf, IsCredited, OnTurn, IsGrouping;
    t := start;
    for i := 0 to |turns|
      invariant OnTurns(t, Credited(participants, allowed, turns[i..])) ==
                OnTurns(start, Credited(participants, allowed, turns))
    {
      CreditLeft(participants, allowed, turns, i);
      if turns[i].session !in allowed {
        continue;
      }
      Grouped(bySession, participants, turns[i].session);
      WindowFound(participants, allowed, turns[i]);
      var ws := if turns[i].session in bySession then bySession[turns[i].session] else [];
      var found := FindWindow(ws, turns[i].principal);
      if found {
        t := OnTurn(t, turns[i]);
      }
    }
    assert turns[|turns|..] == [];
  }

  lemma CreditLeft(ws: seq<Window>, allowed: seq<Id>, ts: seq<Turn>, i: nat)
    requires i < |ts|
    ensures ts[i].session !in allowed ==> !IsCredited(ws, allowed, ts[i])
    ensures var rest := Credited(ws, allowed, ts[i + 1..]);
            && (IsCredited(ws, allowed, ts[i]) ==>
                  var now := Credited(ws, allowed, ts[i..]); now != [] && now[0] == ts[i] && now[1..] == rest)
            && (!IsCredited(ws, allowed, ts[i]) ==> Credited(ws, allowed, ts[i..]) == rest)
  {
    assert ts[i..][0] == ts[i] && ts[i..][1..] == ts[i + 1..];
    var rest := Credited(ws, allowed, ts[i + 1..]);
    assert [] + rest == rest && ([ts[i]] + rest)[1..] == rest;
  }

  // ---------------------------------------------------------------------------
  // What is gathered
  // ---------------------------------------------------------------------------

  function SumTurns(ts: seq<Turn>): nat {
    if ts == [] then 0 else ts[0].turns + SumTurns(ts[1..])
  }

  function SumOver(t: Tally, us: seq<Id>): nat {
    if us == [] then 0 else TurnsOf(t, us[0]) + SumOver(t, us[1..])
  }

  ghost predicate Distinct(us: seq<Id>) {
    forall a, b :: 0 <= a < b < |us| ==> us[a] != us[b]
  }

  /** The users are the keys, each once; every one of them has a day. */
  ghost predicate Consistent(t: Tally) {
    && Distinct(t.users)
    && (forall u :: u in t.users <==> u in t.days)
    && (forall u :: u in t.turns <==> u in t.days)
    && (forall u :: u in t.days ==> t.days[u] != {})
  }

  lemma TurnKeeps(t: Tally, turn: Turn)
    requires Consistent(t)
    ensures Consistent(OnTurn(t, turn))
  {
    var r := OnTurn(t, turn);
    forall u | u in r.days ensures r.days[u] != {} {
      assert u == turn.principal ==> turn.day in r.days[u];
    }
  }

  lemma {:induction false} TurnsKeep(t: Tally, ts: seq<Turn>)
    requires Consistent(t)
    ensures Consistent(OnTurns(t, ts))
    decreases |ts|
  {
    hide OnTurn, Consistent;
    if ts != [] {
      TurnKeeps(t, ts[0]);
      TurnsKeep(OnTurn(t, ts[0]), ts[1..]);
    }
  }

  lemma {:induction false} SessionsKeep(t: Tally, ws: seq<Window>, sessions: seq<Id>)
    ensures var r := OnSessions(t, ws, sessions); r.users == t.users && r.days == t.days && r.turns == t.turns
    decreases |sessions|
  {
    if sessions != [] {
      WindowsKeep(t, sessions[0], WindowsOf(ws, sessions[0]));
      SessionsKeep(OnWindows(t, sessions[0], WindowsOf(ws, sessions[0])), ws, sessions[1..]);
    }
  }

  lemma {:induction false} WindowsKeep(t: Tally, session: Id, ws: seq<Window>)
    ensures var r := OnWindows(t, session, ws); r.users == t.users && r.days == t.days && r.turns == t.turns
    decreases |ws|
  {
    if ws != [] {
      WindowsKeep(OnWindow(t, session, ws[0]), session, ws[1..]);
    }
  }

  /** A user's days and turns are those of the turns credited to it. */
  lemma {:induction false} TurnsGather(t: Tally, ts: seq<Turn>, u: Id)
    ensures forall d :: d in Days(OnTurns(t, ts), u) <==>
              d in Days(t, u) || exists k :: 0 <= k < |ts| && ts[k].principal == u && ts[k].day == d
    decreases |ts|
  {
    if ts != [] {
      TurnsGather(OnTurn(t, ts[0]), ts[1..], u);
      assert ts == [ts[0]] + ts[1..];
      forall d ensures d in Days(OnTurns(t, ts), u) <==>
                       d in Days(t, u) || exists k :: 0 <= k < |ts| && ts[k].principal == u && ts[k].day == d
      {
        if k :| 0 <= k < |ts| && ts[k].principal == u && ts[k].day == d {
          assert k > 0 ==> ts[1..][k - 1] == ts[k];
        }
        if k :| 0 <= k < |ts[1..]| && ts[1..][k].principal == u && ts[1..][k].day == d {
          assert ts[k + 1] == ts[1..][k];
        }
      }
    }
  }

  lemma {:induction false} SumSame(t: Tally, r: Tally, us: seq<Id>)
    requires forall u :: u in us ==> TurnsOf(t, u) == TurnsOf(r, u)
    ensures SumOver(t, us) == SumOver(r, us)
  {
    if us != [] {
      SumSame(t, r, us[1..]);
    }
  }

  lemma {:induction false} SumAppend(t: Tally, us: seq<Id>, u: Id)
    ensures SumOver(t, us + [u]) == SumOver(t, us) + TurnsOf(t, u)
  {
    if us == [] {
      assert us + [u] == [u] && [u][1..] == [];
    } else {
      assert (us + [u])[1..] == us[1..] + [u];
      SumAppend(t, us[1..], u);
    }
  }

  lemma {:induction false} SumUpdate(t: Tally, r: Tally, us: seq<Id>, u: Id, n: nat)
    requires Distinct(us) && u in us
    requires TurnsOf(r, u) == TurnsOf(t, u) + n && forall v :: v != u ==> TurnsOf(r, v) == TurnsOf(t, v)
    ensures SumOver(r, us) == SumOver(t, us) + n
  {
    if us[0] == u {
      forall v | v in us[1..] ensures v != u {
        var k :| 0 <= k < |us[1..]| && us[1..][k] == v;
        assert us[k + 1] == v;
      }
      SumSame(t, r, us[1..]);
    } else {
      assert us == [us[0]] + us[1..];
      SumUpdate(t, r, us[1..], u, n);
    }
  }

  lemma TurnSums(t: Tally, turn: Turn)
    requires Consistent(t)
    ensures SumOver(OnTurn(t, turn), OnTurn(t, turn).users) == SumOver(t, t.users) + turn.turns
  {
    var r, u := OnTurn(t, turn), turn.principal;
    assert forall v :: v != u ==> TurnsOf(r, v) == TurnsOf(t, v);
    if u in t.days {
      SumUpdate(t, r, t.users, u, turn.turns);
    } else {
      SumSame(t, r, t.users);
      SumAppend(r, t.users, u);
    }
  }

  lemma {:induction false} TurnsSum(t: Tally, ts: seq<Turn>)
    requires Consistent(t)
    ensures SumOver(OnTurns(t, ts), OnTurns(t, ts).users) == SumOver(t, t.users) + SumTurns(ts)
    decreases |ts|
  {
    hide OnTurn, SumOver, Consistent;
    if ts != [] {
      TurnKeeps(t, ts[0]);
      TurnSums(t, ts[0]);
      TurnsSum(OnTurn(t, ts[0]), ts[1..]);
    }
  }

  /**
   * The turns credited to users add up to the turns whose author has a window in an allowed
   * session; a user's active days are the days of these turns.
   */
  lemma CreditsAddUp(ws: seq<Window>, ts: seq<Turn>, allowed: seq<Id>, u: Id, d: int)
    ensures var t := Gathered(ws, ts, allowed);
            var credited := Credited(ws, allowed, ts);
            && Consistent(t)
            && SumOver(t, t.users) == SumTurns(credited)
            && (d in Days(t, u) <==> exists k :: 0 <= k < |credited| && credited[k].principal == u && credited[k].day == d)
  {
    hide OnTurns, OnSessions, Credited, SumOver;
    var s, credited := OnSessions(NOTHING, ws, allowed), Credited(ws, allowed, ts);
    SessionsKeep(NOTHING, ws, allowed);
    assert Consistent(s);
    NothingSummed(s);
    TurnsKeep(s, credited);
    TurnsSum(s, credited);
    TurnsGather(s, credited, u);
  }

  lemma NothingSummed(s: Tally)
    ensures SumOver(s, []) == 0
  {
  }

  // ---------------------------------------------------------------------------
  // Active users
  // ---------------------------------------------------------------------------

  predicate ActiveInLast(t: Tally, u: Id, today: int, n: nat) {
    exists d :: d in Days(t, u) && today - n < d <= today
  }

  function ActiveUsers(t: Tally, us: seq<Id>, today: int, n: nat): seq<Id> {
    if us == [] then []
    else (if ActiveInLast(t, us[0], today, n) then [us[0]] else []) + ActiveUsers(t, us[1..], today, n)
  }

  lemma {:induction false} MoreDaysMoreUsers(t: Tally, us: seq<Id>, today: int, m: nat, n: nat)
    requires m <= n
    ensures |ActiveUsers(t, us, today, m)| <= |ActiveUsers(t, us, today, n)| <= |us|
  {
    if us != [] {
      MoreDaysMoreUsers(t, us[1..], today, m, n);
    }
  }

  ghost predicate IsLeast(s: set<int>, m: int) {
    m in s && forall x :: x in s ==> m <= x
  }

  lemma LeastOfMore(s: set<int>, x: int, rest: set<int>, m: int)
    requires s == rest + {x} && IsLeast(rest, m)
    ensures IsLeast(s, if m <= x then m else x)
  {
  }

  lemma HasElement(s: set<int>)
    ensures s != {} ==> exists x :: x in s
  {
    assert (forall x :: x !in s) ==> s == {};
  }

  lemma {:induction false} LeastExists(s: set<int>) returns (m: int)
    requires s != {}
    ensures IsLeast(s, m)
    decreases |s|
  {
    hide IsLeast;
    HasElement(s);
    var x :| x in s;
    var rest := s - {x};
    assert s == rest + {x};
    if rest == {} {
      m := x;
      OnlyLeast(s, x);
    } else {
      m := LeastExists(rest);
      LeastOfMore(s, x, rest, m);
      m := if m <= x then m else x;
    }
  }

  lemma OnlyLeast(s: set<int>, x: int)
    requires s == {x}
    ensures IsLeast(s, x)
  {
  }

  function Least(s: set<int>): (m: int)
    requires s != {}
    ensures m in s && forall x :: x in s ==> m <= x
  {
    SomeLeast(s);
    var m :| m in s && forall x :: x in s ==> m <= x;
    m
  }

  lemma SomeLeast(s: set<int>)
    requires s != {}
    ensures exists m :: m in s && forall x :: x in s ==> m <= x
  {
    var m := LeastExists(s);
    assert m in s && forall x :: x in s ==> m <= x;
  }

  // ---------------------------------------------------------------------------
  // New and returning users
  // ---------------------------------------------------------------------------

  ghost predicate HaveDays(t: Tally, us: seq<Id>) {
    forall u :: u in us ==> Days(t, u) != {}
  }

  function NewUsers(t: Tally, us: seq<Id>, today: int): nat
    requires HaveDays(t, us)
  {
    if us == [] then 0
    else (if ActiveInLast(t, us[0], today, 30) && Least(Days(t, us[0])) > today - 30 then 1 else 0)
         + NewUsers(t, us[1..], today)
  }

  function Returning(t: Tally, us: seq<Id>, today: int): nat
    requires HaveDays(t, us)
  {
    if us == [] then 0
    else (if ActiveInLast(t, us[0], today, 30) && Least(Days(t, us[0])) <= today - 30 then 1 else 0)
         + Returning(t, us[1..], today)
  }

  method CountNewAndReturning(t: Tally, us: seq<Id>, today: int) returns (newUsers: nat, returning: nat)
    requires HaveDays(t, us)
    ensures newUsers == NewUsers(t, us, today) && returning == Returning(t, us, today)
  {
    hide ActiveInLast, Least;
    newUsers, returning := 0, 0;
    for i := 0 to |us|
      invariant newUsers + NewUsers(t, us[i..], today) == NewUsers(t, us, today)
      invariant returning + Returning(t, us[i..], today) == Returning(t, us, today)
    {
      assert us[i..][0] == us[i] && us[i..][1..] == us[i + 1..];
      if !ActiveInLast(t, us[i], today, 30) {
        continue;
      }
      if Least(Days(t, us[i])) > today - 30 {
        newUsers := newUsers + 1;
      } else {
        returning := returning + 1;
      }
    }
  }

  lemma {:induction false} NewAndReturning(t: Tally, us: seq<Id>, today: int)
    requires HaveDays(t, us)
    ensures NewUsers(t, us, today) + Returning(t, us, today) == |ActiveUsers(t, us, today, 30)|
  {
    hide ActiveInLast, Least;
    if us != [] {
      NewAndReturning(t, us[1..], today);
    }
  }

  // ---------------------------------------------------------------------------
  // Cohorts
  // ---------------------------------------------------------------------------

  function WeekOf(d: int): int { d / 7 }

  function WeeksOf(t: Tally, u: Id): set<int> {
    set d | d in Days(t, u) :: WeekOf(d)
  }

  lemma WeeksNotEmpty(t: Tally, u: Id)
    requires Days(t, u) != {}
    ensures WeeksOf(t, u) != {}
  {
    HasElement(Days(t, u));
    var d :| d in Days(t, u);
    assert WeekOf(d) in WeeksOf(t, u);
  }

  function FirstWeek(t: Tally, u: Id): (w: int)
    requires Days(t, u) != {}
    ensures w in WeeksOf(t, u)
  {
    WeeksNotEmpty(t, u);
    Least(WeeksOf(t, u))
  }

  /** The users whose first active week it is. */
  function Members(t: Tally, us: seq<Id>, week: int): seq<Id>
    requires HaveDays(t, us)
  {
    if us == [] then []
    else (if FirstWeek(t, us[0]) == week then [us[0]] else []) + Members(t, us[1..], week)
  }

  function InsertWeek(w: int, ws: seq<int>): seq<int> {
    if ws == [] then [w]
    else if w < ws[0] then [w] + ws
    else if w == ws[0] then ws
    else [ws[0]] + InsertWeek(w, ws[1..])
  }

  /** The first weeks of all users, in order, each once. */
  function Weeks(t: Tally, us: seq<Id>): seq<int>
    requires HaveDays(t, us)
  {
    if us == [] then [] else InsertWeek(FirstWeek(t, us[0]), Weeks(t, us[1..]))
  }

  ghost predicate IsCohorts(t: Tally, us: seq<Id>, m: map<int, seq<Id>>)
    requires HaveDays(t, us)
  {
    && (forall w: int :: (if w in m then m[w] else []) == Members(t, us, w))
    && (forall w: int :: w in m ==> m[w] != [])
  }

  lemma {:induction false} MembersAppend(t: Tally, us: seq<Id>, u: Id, w: int)
    requires HaveDays(t, us + [u])
    ensures HaveDays(t, us) && Days(t, u) != {}
    ensures Members(t, us + [u], w) == Members(t, us, w) + if FirstWeek(t, u) == w then [u] else []
  {
    hide FirstWeek, Days;
    assert u in us + [u] && forall v :: v in us ==> v in us + [u];
    if us == [] {
      assert us + [u] == [u] && [u][1..] == [];
    } else {
      assert (us + [u])[1..] == us[1..] + [u];
      assert forall v :: v in us[1..] + [u] ==> v in us + [u];
      MembersAppend(t, us[1..], u, w);
    }
  }

  lemma HaveDaysFront(t: Tally, us: seq<Id>, i: nat)
    requires HaveDays(t, us) && i <= |us|
    ensures HaveDays(t, us[..i]) && (i < |us| ==> Days(t, us[i]) != {})
  {
  }

  method CohortMembers(t: Tally, us: seq<Id>) returns (m: map<int, seq<Id>>)
    requires HaveDays(t, us)
    ensures IsCohorts(t, us, m)
  {
    hide Days, FirstWeek, Members;
    m := map[];
    NoMembers(t);
    for i := 0 to |us|
      invariant HaveDays(t, us[..i]) && IsCohorts(t, us[..i], m)
    {
      HaveDaysFront(t, us, i);
      HaveDaysFront(t, us, i + 1);
      assert us[..i + 1] == us[..i] + [us[i]];
      ghost var before := m;
      var first := FirstWeek(t, us[i]);
      m := m[first := (if first in m then m[first] + [us[i]] else [us[i]])];
      forall w: int ensures (if w in m then m[w] else []) == Members(t, us[..i + 1], w) {
        MembersAppend(t, us[..i], us[i], w);
        assert (if w in before then before[w] else []) == Members(t, us[..i], w);
      }
    }
    assert us[..|us|] == us;
  }

  lemma NoMembers(t: Tally)
    ensures HaveDays(t, []) && forall w: int :: Members(t, [], w) == []
  {
  }

  /** `Math.round(part / whole * 100)`, rounding half up, on integers. */
  function Percent(part: nat, whole: nat): nat {
    if whole == 0 then 0 else (200 * part + whole) / (2 * whole)
  }

  function ActiveIn(t: Tally, us: seq<Id>, week: int): nat {
    if us == [] then 0 else (if week in WeeksOf(t, us[0]) then 1 else 0) + ActiveIn(t, us[1..], week)
  }

  datatype Row = Row(week: int, size: nat, retained: seq<nat>)

  function RetainedIn(t: Tally, members: seq<Id>, week: int): nat {
    Percent(ActiveIn(t, members, week), |members|)
  }

  function RowOf(t: Tally, members: seq<Id>, week: int): Row {
    Row(week, |members|, [RetainedIn(t, members, week), RetainedIn(t, members, week + 1),
                          RetainedIn(t, members, week + 2), RetainedIn(t, members, week + 3),
                          RetainedIn(t, members, week + 4)])
  }

  function Rows(t: Tally, us: seq<Id>, weeks: seq<int>): (rs: seq<Row>)
    requires HaveDays(t, us)
    ensures |rs| == |weeks| && forall k :: 0 <= k < |weeks| ==> rs[k] == RowOf(t, Members(t, us, weeks[k]), weeks[k])
  {
    if weeks == [] then [] else [RowOf(t, Members(t, us, weeks[0]), weeks[0])] + Rows(t, us, weeks[1..])
  }

  function LastEight<T>(s: seq<T>): seq<T> {
    if |s| <= 8 then s else s[|s| - 8..]
  }

  ghost predicate AscendsWeeks(ws: seq<int>) {
    forall a, b :: 0 <= a < b < |ws| ==> ws[a] < ws[b]
  }

  lemma {:induction false} InsertWeekSorts(w: int, ws: seq<int>)
    requires AscendsWeeks(ws)
    ensures AscendsWeeks(InsertWeek(w, ws)) && forall x :: x in InsertWeek(w, ws) <==> x == w || x in ws
  {
    hide AscendsWeeks;
    InsertWeekHolds(w, ws);
    if ws == [] {
      WeeksJoin(w, ws);
    } else {
      WeeksSplit(ws);
      if w < ws[0] {
        WeeksJoin(w, ws);
      } else if w > ws[0] {
        InsertWeekSorts(w, ws[1..]);
        WeeksJoin(ws[0], InsertWeek(w, ws[1..]));
      }
    }
  }

  lemma {:induction false} InsertWeekHolds(w: int, ws: seq<int>)
    ensures forall x :: x in InsertWeek(w, ws) <==> x == w || x in ws
  {
    if ws != [] && w > ws[0] {
      assert ws == [ws[0]] + ws[1..];
      InsertWeekHolds(w, ws[1..]);
    }
  }

  lemma WeeksSplit(ws: seq<int>)
    requires AscendsWeeks(ws) && ws != []
    ensures AscendsWeeks(ws[1..]) && forall x :: x in ws ==> if x in ws[1..] then x > ws[0] else x == ws[0]
  {
    assert ws == [ws[0]] + ws[1..];
  }

  /** A week in front of later ones. */
  lemma WeeksJoin(w: int, ws: seq<int>)
    requires AscendsWeeks(ws) && forall x :: x in ws ==> w < x
    ensures AscendsWeeks([w]) && AscendsWeeks([w] + ws)
  {
    assert forall k :: 0 <= k < |ws| ==> ws[k] in ws;
  }

  lemma {:induction false} WeeksSorted(t: Tally, us: seq<Id>)
    requires HaveDays(t, us)
    ensures AscendsWeeks(Weeks(t, us))
    ensures forall w :: w in Weeks(t, us) <==> exists k :: 0 <= k < |us| && FirstWeek(t, us[k]) == w
  {
    hide FirstWeek, Days;
    if us != [] {
      WeeksSorted(t, us[1..]);
      InsertWeekSorts(FirstWeek(t, us[0]), Weeks(t, us[1..]));
      forall w ensures w in Weeks(t, us) <==> exists k :: 0 <= k < |us| && FirstWeek(t, us[k]) == w {
        if k :| 0 <= k < |us[1..]| && FirstWeek(t, us[1..][k]) == w {
          assert FirstWeek(t, us[k + 1]) == w;
        }
        if k :| 0 <= k < |us| && FirstWeek(t, us[k]) == w {
          assert k > 0 ==> us[1..][k - 1] == us[k];
        }
      }
    }
  }

  function SumSizes(t: Tally, us: seq<Id>, weeks: seq<int>): nat
    requires HaveDays(t, us)
  {
    if weeks == [] then 0 else |Members(t, us, weeks[0])| + SumSizes(t, us, weeks[1..])
  }

  lemma {:induction false} SizesStep(t: Tally, us: seq<Id>, weeks: seq<int>)
    requires HaveDays(t, us) && us != [] && AscendsWeeks(weeks)
    ensures SumSizes(t, us, weeks) == SumSizes(t, us[1..], weeks) + if FirstWeek(t, us[0]) in weeks then 1 else 0
    decreases |weeks|
  {
    hide FirstWeek, Days;
    if weeks != [] {
      SizesStep(t, us, weeks[1..]);
      assert weeks == [weeks[0]] + weeks[1..];
      assert weeks[0] !in weeks[1..];
    }
  }

  lemma {:induction false} SizesAddUp(t: Tally, us: seq<Id>, weeks: seq<int>)
    requires HaveDays(t, us) && AscendsWeeks(weeks)
    requires forall k :: 0 <= k < |us| ==> FirstWeek(t, us[k]) in weeks
    ensures SumSizes(t, us, weeks) == |us|
    decreases |us|
  {
    hide FirstWeek, Days;
    if us == [] {
      NoSizes(t, weeks);
    } else {
      SizesStep(t, us, weeks);
      assert forall k :: 0 <= k < |us[1..]| ==> us[1..][k] == us[k + 1];
      SizesAddUp(t, us[1..], weeks);
    }
  }

  lemma {:induction false} NoSizes(t: Tally, weeks: seq<int>)
    ensures HaveDays(t, []) && SumSizes(t, [], weeks) == 0
  {
    if weeks != [] {
      NoSizes(t, weeks[1..]);
    }
  }

  lemma {:induction false} MembersActive(t: Tally, us: seq<Id>, week: int)
    requires HaveDays(t, us)
    ensures ActiveIn(t, Members(t, us, week), week) == |Members(t, us, week)|
    ensures Members(t, us, week) == [] <==> forall k :: 0 <= k < |us| ==> FirstWeek(t, us[k]) != week
  {
    hide WeeksOf, Days;
    if us != [] {
      var rest := Members(t, us[1..], week);
      MembersActive(t, us[1..], week);
      assert [] + rest == rest && ([us[0]] + rest)[1..] == rest;
      assert us == [us[0]] + us[1..];
      assert forall k :: 0 <= k < |us[1..]| ==> us[1..][k] == us[k + 1];
    }
  }

  /** All of a whole is a hundred percent. */
  lemma AllIsHundred(n: nat)
    requires n > 0
    ensures Percent(n, n) == 100
  {
    hide *;
    assert 200 * n + n == 100 * (2 * n) + n;
    QuotientIs(200 * n + n, 2 * n, 100, n);
    PercentIs(n, n);
  }

  lemma QuotientIs(x: nat, d: nat, q: nat, r: nat)
    requires r < d && x == q * d + r
    ensures x / d == q
  {
    LessFactor(x / d, q + 1, d);
    LessFactor(q, x / d + 1, d);
  }

  lemma LessFactor(a: int, b: int, d: nat)
    requires d > 0 && a * d < b * d
    ensures a < b
  {
    assert (b - a) * d > 0;
  }

  lemma PercentIs(part: nat, whole: nat)
    requires whole > 0
    ensures Percent(part, whole) == (200 * part + whole) / (2 * whole)
  {
  }

  /** The cohorts partition the users; their weeks ascend, and in its first week all of a cohort is active. */
  lemma CohortsPartition(t: Tally, us: seq<Id>, k: nat)
    requires HaveDays(t, us)
    ensures var weeks := Weeks(t, us);
            var rows := Rows(t, us, weeks);
            && AscendsWeeks(weeks) && SumSizes(t, us, weeks) == |us|
            && (k < |rows| ==> rows[k].week == weeks[k] && rows[k].size == |Members(t, us, weeks[k])|
                               && rows[k].size > 0 && rows[k].retained[0] == 100)
  {
    hide FirstWeek, Days, Members, ActiveIn;
    var weeks := Weeks(t, us);
    WeeksSorted(t, us);
    forall j | 0 <= j < |us| ensures FirstWeek(t, us[j]) in weeks {
    }
    SizesAddUp(t, us, weeks);
    if k < |weeks| {
      assert weeks[k] in weeks;
      MembersActive(t, us, weeks[k]);
      AllIsHundred(|Members(t, us, weeks[k])|);
    }
  }

  // ---------------------------------------------------------------------------
  // Percentiles
  // ---------------------------------------------------------------------------

  function InsertNumber(n: nat, ns: seq<nat>): seq<nat> {
    if ns == [] || n <= ns[0] then [n] + ns else [ns[0]] + InsertNumber(n, ns[1..])
  }

  function SortNumbers(ns: seq<nat>): seq<nat> {
    if ns == [] then [] else InsertNumber(ns[0], SortNumbers(ns[1..]))
  }

  ghost predicate IsSorted(ns: seq<nat>) {
    forall a, b :: 0 <= a < b < |ns| ==> ns[a] <= ns[b]
  }

  lemma {:induction false} InsertNumberSorts(n: nat, ns: seq<nat>)
    requires IsSorted(ns)
    ensures IsSorted(InsertNumber(n, ns))
    ensures forall x :: x in InsertNumber(n, ns) <==> x == n || x in ns
  {
    if ns != [] && n > ns[0] {
      InsertNumberSorts(n, ns[1..]);
      var r := InsertNumber(n, ns[1..]);
      assert ns == [ns[0]] + ns[1..];
      forall k | 0 <= k < |r| ensures ns[0] <= r[k] {
        assert r[k] in r;
        if r[k] != n {
          var j :| 0 <= j < |ns[1..]| && ns[1..][j] == r[k];
          assert ns[j + 1] == r[k];
        }
      }
    } else if ns != [] {
      assert ns == [ns[0]] + ns[1..];
    }
  }

  lemma {:induction false} InsertNumberAdds(n: nat, ns: seq<nat>)
    ensures multiset(InsertNumber(n, ns)) == multiset(ns) + multiset{n}
  {
    if ns != [] && n > ns[0] {
      InsertNumberAdds(n, ns[1..]);
      assert ns == [ns[0]] + ns[1..];
    }
  }

  lemma {:induction false} SortNumbersSorts(ns: seq<nat>)
    ensures IsSorted(SortNumbers(ns)) && multiset(SortNumbers(ns)) == multiset(ns) && |SortNumbers(ns)| == |ns|
  {
    hide InsertNumber;
    if ns != [] {
      SortNumbersSorts(ns[1..]);
      InsertNumberSorts(ns[0], SortNumbers(ns[1..]));
      InsertNumberAdds(ns[0], SortNumbers(ns[1..]));
      assert ns == [ns[0]] + ns[1..];
    }
    SameLength(SortNumbers(ns), ns);
  }

  lemma SameLength(a: seq<nat>, b: seq<nat>)
    requires multiset(a) == multiset(b)
    ensures |a| == |b|
  {
    assert |multiset(a)| == |a| && |multiset(b)| == |b|;
  }

  /** The smallest index whose rank reaches `p` percent. */
  function RankIndex(n: nat, p: nat): (i: nat)
    requires n > 0
    ensures i < n
  {
    var rank := (p * n + 99) / 100;
    if rank == 0 then 0 else if rank > n then n - 1 else rank - 1
  }

  function Percentile(sorted: seq<nat>, p: nat): nat {
    if sorted == [] then 0 else sorted[RankIndex(|sorted|, p)]
  }

  function CountUpTo(ns: seq<nat>, v: int): nat {
    if ns == [] then 0 else (if ns[0] <= v then 1 else 0) + CountUpTo(ns[1..], v)
  }

  lemma {:induction false} CountsUpTo(ns: seq<nat>, v: int, i: nat)
    requires IsSorted(ns) && i <= |ns|
    ensures (forall k :: 0 <= k < i ==> ns[k] <= v) ==> CountUpTo(ns, v) >= i
    ensures (forall k :: i <= k < |ns| ==> ns[k] > v) ==> CountUpTo(ns, v) <= i
    decreases |ns|
  {
    if ns != [] {
      assert forall k :: 0 <= k < |ns[1..]| ==> ns[1..][k] == ns[k + 1];
      CountsUpTo(ns[1..], v, if i == 0 then 0 else i - 1);
    }
  }

  /**
   * A percentile is the nearest-rank element: at least p percent of the values are no greater, and
   * of every smaller value fewer than p percent are.
   */
  lemma NearestRank(sorted: seq<nat>, p: nat, w: nat)
    requires IsSorted(sorted) && sorted != [] && p <= 100
    ensures var v := Percentile(sorted, p);
            && v in sorted && 100 * CountUpTo(sorted, v) >= p * |sorted|
            && (w in sorted && w < v ==> 100 * CountUpTo(sorted, w) < p * |sorted|)
  {
    var n := |sorted|;
    var i := RankIndex(n, p);
    var v := sorted[i];
    CountsUpTo(sorted, v, i + 1);
    RankReaches(n, p);
    if w < v {
      CountsUpTo(sorted, w, i);
      forall k | i <= k < n ensures sorted[k] > w {
        assert sorted[i] <= sorted[k];
      }
      if w in sorted {
        var k :| 0 <= k < n && sorted[k] == w;
        assert k < i;
      }
    }
  }

  lemma RankReaches(n: nat, p: nat)
    requires n > 0 && p <= 100
    ensures var i := RankIndex(n, p); 100 * (i + 1) >= p * n && (i > 0 ==> 100 * i < p * n)
  {
    var x := p * n;
    assert x <= 100 * n;
    var rank := (x + 99) / 100;
    assert x + 99 == 100 * rank + (x + 99) % 100;
  }

  lemma PercentilesAscend(sorted: seq<nat>, p: nat, q: nat)
    requires IsSorted(sorted) && p <= q
    ensures Percentile(sorted, p) <= Percentile(sorted, q)
  {
    if sorted != [] {
      var n := |sorted|;
      assert p * n <= q * n;
      assert RankIndex(n, p) <= RankIndex(n, q);
    }
  }

  // ---------------------------------------------------------------------------
  // The report
  // ---------------------------------------------------------------------------

  datatype Report = Report(
    dau: nat, wau: nat, mau: nat, stickiness: nat, newUsers: nat, returning: nat, cohorts: seq<Row>,
    sessions50: nat, sessions95: nat, turns50: nat, turns95: nat, users: nat, sessions: nat)

  function SessionCounts(t: Tally, us: seq<Id>): seq<nat> {
    if us == [] then [] else [|SessionsOf(t, us[0])|] + SessionCounts(t, us[1..])
  }

  function TurnCounts(t: Tally, us: seq<Id>): seq<nat> {
    if us == [] then [] else [TurnsOf(t, us[0])] + TurnCounts(t, us[1..])
  }

  lemma UsersHaveDays(t: Tally)
    requires Consistent(t)
    ensures HaveDays(t, t.users)
  {
  }

  function ReportOf(t: Tally, nowMs: int, sessions: nat): Report
    requires Consistent(t)
  {
    UsersHaveDays(t);
    var today, us := nowMs / DAY, t.users;
    var dau, mau := |ActiveUsers(t, us, today, 1)|, |ActiveUsers(t, us, today, 30)|;
    var byUser, turns := SortNumbers(SessionCounts(t, us)), SortNumbers(TurnCounts(t, us));
    Report(dau, |ActiveUsers(t, us, today, 7)|, mau, Percent(dau, mau), NewUsers(t, us, today), Returning(t, us, today),
           LastEight(Rows(t, us, Weeks(t, us))),
           Percentile(byUser, 50), Percentile(byUser, 95), Percentile(turns, 50), Percentile(turns, 95), |us|, sessions)
  }

  method ComputeRetention(sessions: seq<Id>, participants: seq<Window>, turns: seq<Turn>, nowMs: int)
    returns (r: Report)
    ensures Consistent(Gathered(participants, turns, sessions))
    ensures r == ReportOf(Gathered(participants, turns, sessions), nowMs, |sessions|)
  {
    hide Gathered, Consistent, ActiveUsers, NewUsers, Returning, Weeks, Percentile, SortNumbers, Days;
    var t := ForEachAttributedTurn(participants, turns, sessions);
    CreditsAddUp(participants, turns, sessions, 0, 0);
    UsersHaveDays(t);
    var today, us := nowMs / DAY, t.users;
    var dau := |ActiveUsers(t, us, today, 1)|;
    var wau := |ActiveUsers(t, us, today, 7)|;
    var mau := |ActiveUsers(t, us, today, 30)|;
    var newUsers, returning := CountNewAndReturning(t, us, today);
    var members := CohortMembers(t, us);
    var rows := CohortRows(t, us, members, Weeks(t, us));
    var sessionCounts := SortNumbers(SessionCounts(t, us));
    var turnCounts := SortNumbers(TurnCounts(t, us));
    return Report(dau, wau, mau, Percent(dau, mau), newUsers, returning, LastEight(rows),
                  Percentile(sessionCounts, 50), Percentile(sessionCounts, 95),
                  Percentile(turnCounts, 50), Percentile(turnCounts, 95), |us|, |sessions|);
  }

  method CohortRows(t: Tally, us: seq<Id>, members: map<int, seq<Id>>, weeks: seq<int>) returns (rows: seq<Row>)
    requires HaveDays(t, us) && IsCohorts(t, us, members)
    ensures rows == Rows(t, us, weeks)
  {
    hide Days, RowOf, Members;
    rows := [];
    for i := 0 to |weeks|
      invariant |rows| == i && forall k :: 0 <= k < i ==> rows[k] == RowOf(t, Members(t, us, weeks[k]), weeks[k])
    {
      var own := if weeks[i] in members then members[weeks[i]] else [];
      rows := rows + [RowOf(t, own, weeks[i])];
    }
  }

  /** The figures of every report fit together. */
  lemma ReportFits(sessions: seq<Id>, participants: seq<Window>, turns: seq<Turn>, nowMs: int)
    ensures var t := Gathered(participants, turns, sessions);
            && Consistent(t)
            && var r := ReportOf(t, nowMs, |sessions|);
            && r.dau <= r.wau <= r.mau <= r.users && r.newUsers + r.returning == r.mau
            && r.sessions50 <= r.sessions95 && r.turns50 <= r.turns95
            && SumOver(t, t.users) == SumTurns(Credited(participants, sessions, turns))
  {
    hide Gathered, Consistent, ActiveUsers, NewUsers, Returning, Weeks, Rows, Percentile, SortNumbers, Days;
    var t := Gathered(participants, turns, sessions);
    var today := nowMs / DAY;
    CreditsAddUp(participants, turns, sessions, 0, 0);
    UsersHaveDays(t);
    MoreDaysMoreUsers(t, t.users, today, 1, 7);
    MoreDaysMoreUsers(t, t.users, today, 7, 30);
    NewAndReturning(t, t.users, today);
    SortNumbersSorts(SessionCounts(t, t.users));
    SortNumbersSorts(TurnCounts(t, t.users));
    PercentilesAscend(SortNumbers(SessionCounts(t, t.users)), 50, 95);
    PercentilesAscend(SortNumbers(TurnCounts(t, t.users)), 50, 95);
  }
}
