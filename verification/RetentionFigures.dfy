// What the figures of a retention report say about the windows and turns they are computed from.

module RetentionFigures {
  import opened Retention

  datatype Input = Input(sessions: seq<Id>, participants: seq<Window>, turns: seq<Turn>, nowMs: int)

  function ReportFor(x: Input): Report {
    ReportFits(x.sessions, x.participants, x.turns, x.nowMs);
    ReportOf(Gathered(x.participants, x.turns, x.sessions), x.nowMs, |x.sessions|)
  }

  // ---------------------------------------------------------------------------
  // Reference definitions
  // ---------------------------------------------------------------------------

  /** A turn counts if its session is listed and its author has a window in it. */
  predicate Counted(x: Input, turn: Turn) {
    turn.session in x.sessions && Window(turn.session, turn.principal) in x.participants
  }

  ghost predicate Acts(x: Input, u: Id, d: int) {
    exists turn :: turn in x.turns && Counted(x, turn) && turn.principal == u && turn.day == d
  }

  ghost function Authors(x: Input): set<Id> {
    set turn | turn in x.turns && Counted(x, turn) :: turn.principal
  }

  ghost predicate ActsBetween(x: Input, u: Id, from: int, to: int) {
    exists d :: from <= d <= to && Acts(x, u, d)
  }

  /** The users with a turn on one of the days. */
  ghost function ActiveBetween(x: Input, from: int, to: int): set<Id> {
    set u | u in Authors(x) && ActsBetween(x, u, from, to)
  }

  function Today(x: Input): int { x.nowMs / 86_400_000 }

  ghost predicate ActsBefore(x: Input, u: Id, day: int) {
    exists d :: d < day && Acts(x, u, d)
  }

  ghost predicate ActsInWeek(x: Input, u: Id, week: int) {
    ActsBetween(x, u, 7 * week, 7 * week + 6)
  }

  /** The users whose first turn falls into the week. */
  ghost function Joining(x: Input, week: int): set<Id> {
    set u | u in Authors(x) && ActsInWeek(x, u, week) && !ActsBefore(x, u, 7 * week)
  }

  ghost function StillActive(x: Input, week: int, later: int): set<Id> {
    set u | u in Joining(x, week) && ActsInWeek(x, u, later)
  }

  /** `r` is `100 * part / whole` rounded to a whole number, halves upwards; zero if there is no whole. */
  predicate IsPercent(r: nat, part: nat, whole: nat) {
    if whole == 0 then r == 0 else whole * (2 * r - 1) <= 200 * part < whole * (2 * r + 1)
  }

  function TurnsBy(x: Input, ts: seq<Turn>, u: Id): nat {
    if ts == [] then 0
    else (if Counted(x, ts[0]) && ts[0].principal == u then ts[0].turns else 0) + TurnsBy(x, ts[1..], u)
  }

  function SessionsBy(x: Input, u: Id): set<Id> {
    set s | s in x.sessions && Window(s, u) in x.participants
  }

  /** At least p percent of the values are no greater, and of no smaller value so; zero without values. */
  ghost predicate IsNearestRank(values: seq<nat>, p: nat, v: nat) {
    if values == [] then v == 0
    else
      && v in values && 100 * CountUpTo(values, v) >= p * |values|
      && forall w :: w in values && w < v ==> 100 * CountUpTo(values, w) < p * |values|
  }

  // ---------------------------------------------------------------------------
  // What has been gathered
  // ---------------------------------------------------------------------------

  function TallyOf(x: Input): Tally {
    Gathered(x.participants, x.turns, x.sessions)
  }

  lemma {:induction false} CreditedAre(x: Input, ts: seq<Turn>)
    ensures forall turn :: turn in Credited(x.participants, x.sessions, ts) <==> turn in ts && Counted(x, turn)
  {
    if ts != [] {
      CreditedAre(x, ts[1..]);
      assert ts == [ts[0]] + ts[1..];
    }
  }

  lemma DaysAre(x: Input, u: Id)
    ensures forall d :: d in Days(TallyOf(x), u) <==> Acts(x, u, d)
  {
    hide Gathered, Days, Credited, Counted;
    var cs := Credited(x.participants, x.sessions, x.turns);
    CreditedAre(x, x.turns);
    forall d ensures d in Days(TallyOf(x), u) <==> Acts(x, u, d) {
      CreditsAddUp(x.participants, x.turns, x.sessions, u, d);
      if k :| 0 <= k < |cs| && cs[k].principal == u && cs[k].day == d {
        assert cs[k] in cs;
      }
    }
  }

  lemma IsAuthor(x: Input, u: Id)
    ensures u in Authors(x) <==> exists d :: Acts(x, u, d)
  {
    hide Counted;
    if u in Authors(x) {
      var turn :| turn in x.turns && Counted(x, turn) && turn.principal == u;
      assert Acts(x, u, turn.day);
    }
  }

  lemma UsersAre(x: Input)
    ensures Consistent(TallyOf(x)) && HaveDays(TallyOf(x), TallyOf(x).users)
    ensures forall u :: u in TallyOf(x).users <==> u in Authors(x)
  {
    hide Gathered, Acts, Authors;
    var t := TallyOf(x);
    CreditsAddUp(x.participants, x.turns, x.sessions, 0, 0);
    forall u ensures u in t.users <==> u in Authors(x) {
      DaysAre(x, u);
      IsAuthor(x, u);
      HasElement(Days(t, u));
    }
  }

  lemma {:induction false} TurnsGathered(x: Input, t: Tally, ts: seq<Turn>, u: Id)
    ensures TurnsOf(OnTurns(t, Credited(x.participants, x.sessions, ts)), u) == TurnsOf(t, u) + TurnsBy(x, ts, u)
    decreases |ts|
  {
    if ts != [] {
      var rest := Credited(x.participants, x.sessions, ts[1..]);
      if Counted(x, ts[0]) {
        assert ([ts[0]] + rest)[1..] == rest;
        TurnsGathered(x, OnTurn(t, ts[0]), ts[1..], u);
      } else {
        assert [] + rest == rest;
        TurnsGathered(x, t, ts[1..], u);
      }
    }
  }

  lemma {:induction false} WindowsGathered(t: Tally, session: Id, ws: seq<Window>, u: Id)
    ensures SessionsOf(OnWindows(t, session, ws), u) ==
            SessionsOf(t, u) + if HasPrincipal(ws, u) then {session} else {}
    decreases |ws|
  {
    if ws != [] {
      WindowsGathered(OnWindow(t, session, ws[0]), session, ws[1..], u);
      assert forall k :: 1 <= k < |ws| ==> ws[k] == ws[1..][k - 1];
      assert forall k :: 0 <= k < |ws[1..]| ==> ws[1..][k] == ws[k + 1];
    }
  }

  lemma {:induction false} SessionsGathered(ws: seq<Window>, t: Tally, ss: seq<Id>, u: Id)
    ensures SessionsOf(OnSessions(t, ws, ss), u) == SessionsOf(t, u) + set s | s in ss && Window(s, u) in ws
    decreases |ss|
  {
    hide WindowsOf, SessionsOf, OnWindows;
    if ss != [] {
      var own := WindowsOf(ws, ss[0]);
      SessionsGathered(ws, OnWindows(t, ss[0], own), ss[1..], u);
      WindowsGathered(t, ss[0], own, u);
      WindowFound(ws, ss, Turn(ss[0], u, 0, 0));
      assert ss == [ss[0]] + ss[1..];
    }
  }

  lemma {:induction false} SessionsStay(t: Tally, ts: seq<Turn>)
    ensures OnTurns(t, ts).sessions == t.sessions
    decreases |ts|
  {
    if ts != [] {
      SessionsStay(OnTurn(t, ts[0]), ts[1..]);
    }
  }

  /** A user's turns and sessions. */
  lemma TotalsAre(x: Input, u: Id)
    ensures TurnsOf(TallyOf(x), u) == TurnsBy(x, x.turns, u)
    ensures SessionsOf(TallyOf(x), u) == SessionsBy(x, u)
  {
    hide OnTurns, OnSessions, Credited;
    var s := OnSessions(NOTHING, x.participants, x.sessions);
    SessionsKeep(NOTHING, x.participants, x.sessions);
    TurnsGathered(x, s, x.turns, u);
    SessionsStay(s, Credited(x.participants, x.sessions, x.turns));
    SessionsGathered(x.participants, NOTHING, x.sessions, u);
  }

  // ---------------------------------------------------------------------------
  // Counting users
  // ---------------------------------------------------------------------------

  function CountWhere(us: seq<Id>, p: Id -> bool): nat {
    if us == [] then 0 else (if p(us[0]) then 1 else 0) + CountWhere(us[1..], p)
  }

  lemma {:induction false} CountIsSize(us: seq<Id>, p: Id -> bool, s: set<Id>)
    requires Distinct(us) && forall u :: u in s <==> u in us && p(u)
    ensures CountWhere(us, p) == |s|
  {
    if us == [] {
      assert s == {};
    } else {
      var rest := s - {us[0]};
      DistinctTail(us);
      forall u ensures u in rest <==> u in us[1..] && p(u) {
        assert u in us <==> u == us[0] || u in us[1..];
      }
      hide Distinct;
      CountIsSize(us[1..], p, rest);
      assert us[0] in us;
      if p(us[0]) {
        assert s == rest + {us[0]};
      } else {
        assert s == rest;
      }
    }
  }

  lemma DistinctTail(us: seq<Id>)
    requires Distinct(us) && us != []
    ensures Distinct(us[1..]) && us[0] !in us[1..] && forall u :: u in us <==> u == us[0] || u in us[1..]
  {
    assert us == [us[0]] + us[1..];
    forall u | u in us[1..] ensures u != us[0] {
      var k :| 0 <= k < |us[1..]| && us[1..][k] == u;
      assert us[k + 1] == u;
    }
  }

  lemma {:induction false} ActiveCount(t: Tally, us: seq<Id>, today: int, n: nat, p: Id -> bool)
    requires forall u :: u in us ==> (p(u) <==> ActiveInLast(t, u, today, n))
    ensures |ActiveUsers(t, us, today, n)| == CountWhere(us, p)
  {
    hide ActiveInLast;
    if us != [] {
      assert forall u :: u in us[1..] ==> u in us;
      ActiveCount(t, us[1..], today, n, p);
    }
  }

  lemma {:induction false} NewCount(t: Tally, us: seq<Id>, today: int, p: Id -> bool)
    requires HaveDays(t, us)
    requires forall u :: u in us ==> (p(u) <==> ActiveInLast(t, u, today, 30) && Least(Days(t, u)) > today - 30)
    ensures NewUsers(t, us, today) == CountWhere(us, p)
  {
    hide ActiveInLast, Least, Days;
    if us != [] {
      assert forall u :: u in us[1..] ==> u in us;
      NewCount(t, us[1..], today, p);
    }
  }

  lemma {:induction false} MembersCount(t: Tally, us: seq<Id>, week: int, p: Id -> bool)
    requires HaveDays(t, us)
    requires forall u :: u in us ==> (p(u) <==> FirstWeek(t, u) == week)
    ensures |Members(t, us, week)| == CountWhere(us, p)
  {
    hide FirstWeek, Days;
    if us != [] {
      assert forall u :: u in us[1..] ==> u in us;
      MembersCount(t, us[1..], week, p);
    }
  }

  lemma {:induction false} RetainedCount(t: Tally, us: seq<Id>, week: int, later: int, p: Id -> bool)
    requires HaveDays(t, us)
    requires forall u :: u in us ==> (p(u) <==> FirstWeek(t, u) == week && later in WeeksOf(t, u))
    ensures ActiveIn(t, Members(t, us, week), later) == CountWhere(us, p)
  {
    hide FirstWeek, Days, WeeksOf;
    if us != [] {
      assert forall u :: u in us[1..] ==> u in us;
      RetainedCount(t, us[1..], week, later, p);
      var rest := Members(t, us[1..], week);
      assert ([us[0]] + rest)[1..] == rest && [] + rest == rest;
    }
  }

  // ---------------------------------------------------------------------------
  // Active, new and returning users
  // ---------------------------------------------------------------------------

  lemma ActiveIs(x: Input, today: int, n: nat)
    ensures |ActiveUsers(TallyOf(x), TallyOf(x).users, today, n)| == |ActiveBetween(x, today - n + 1, today)|
  {
    hide TallyOf, Days, Acts, Authors, Consistent, Distinct, HaveDays;
    var t := TallyOf(x);
    var p := (u: Id) => ActiveInLast(t, u, today, n);
    UsersAre(x);
    UsersDistinct(t);
    forall u ensures p(u) <==> ActsBetween(x, u, today - n + 1, today) {
      DaysAre(x, u);
    }
    ActiveCount(t, t.users, today, n, p);
    CountIsSize(t.users, p, ActiveBetween(x, today - n + 1, today));
  }

  lemma UsersDistinct(t: Tally)
    requires Consistent(t)
    ensures Distinct(t.users) && HaveDays(t, t.users)
  {
    UsersHaveDays(t);
  }

  /** The users with a turn on one of the days and none in front of them. */
  ghost function NewBetween(x: Input, from: int, to: int): set<Id> {
    set u | u in Authors(x) && ActsBetween(x, u, from, to) && !ActsBefore(x, u, from)
  }

  ghost function ReturningBetween(x: Input, from: int, to: int): set<Id> {
    set u | u in Authors(x) && ActsBetween(x, u, from, to) && ActsBefore(x, u, from)
  }

  lemma NewOrReturning(x: Input, from: int, to: int)
    ensures |ActiveBetween(x, from, to)| == |NewBetween(x, from, to)| + |ReturningBetween(x, from, to)|
  {
    hide Authors, ActsBetween, ActsBefore;
    var news, others := NewBetween(x, from, to), ReturningBetween(x, from, to);
    assert ActiveBetween(x, from, to) == news + others && news !! others;
  }

  lemma LeastBehind(x: Input, u: Id, day: int)
    requires Days(TallyOf(x), u) != {}
    ensures Least(Days(TallyOf(x), u)) > day <==> !ActsBefore(x, u, day + 1)
  {
    hide TallyOf, Days, Acts;
    DaysAre(x, u);
  }

  lemma NewIs(x: Input, today: int)
    ensures HaveDays(TallyOf(x), TallyOf(x).users)
    ensures NewUsers(TallyOf(x), TallyOf(x).users, today) == |NewBetween(x, today - 29, today)|
  {
    hide TallyOf, Days, Acts, Authors, Consistent, Distinct, Least, ActsBefore, NewUsers, DaysOr, ActiveInLast, ActsBetween;
    var t := TallyOf(x);
    UsersAre(x);
    UsersDistinct(t);
    var p := (u: Id) => ActiveInLast(t, u, today, 30) && Least(DaysOr(t, u)) > today - 30;
    forall u | u in t.users
      ensures p(u) <==> ActsBetween(x, u, today - 29, today) && !ActsBefore(x, u, today - 29)
      ensures p(u) <==> ActiveInLast(t, u, today, 30) && Least(Days(t, u)) > today - 30
    {
      DaysIfAny(t, u);
      ActiveIfActs(x, u, today, 30);
      LeastBehind(x, u, today - 30);
    }
    NewCount(t, t.users, today, p);
    CountIsSize(t.users, p, NewBetween(x, today - 29, today));
  }

  lemma DaysIfAny(t: Tally, u: Id)
    ensures Days(t, u) != {} ==> DaysOr(t, u) == Days(t, u)
  {
  }

  lemma ActiveIfActs(x: Input, u: Id, today: int, n: nat)
    ensures ActiveInLast(TallyOf(x), u, today, n) <==> ActsBetween(x, u, today - n + 1, today)
  {
    hide TallyOf, Days, Acts;
    DaysAre(x, u);
  }

  lemma ReturningIs(x: Input, today: int)
    ensures HaveDays(TallyOf(x), TallyOf(x).users)
    ensures Returning(TallyOf(x), TallyOf(x).users, today) == |ReturningBetween(x, today - 29, today)|
  {
    hide TallyOf, NewUsers, Returning, ActiveUsers, NewBetween, ReturningBetween, ActiveBetween, HaveDays, Consistent;
    UsersAre(x);
    NewIs(x, today);
    NewAndReturning(TallyOf(x), TallyOf(x).users, today);
    ActiveIs(x, today, 30);
    NewOrReturning(x, today - 29, today);
  }

  function DaysOr(t: Tally, u: Id): (s: set<int>)
    ensures s != {}
    ensures Days(t, u) != {} ==> s == Days(t, u)
  {
    if Days(t, u) != {} then Days(t, u) else {0}
  }

  lemma PercentFits(part: nat, whole: nat)
    ensures IsPercent(Percent(part, whole), part, whole)
  {
    hide *;
    if whole > 0 {
      PercentIs(part, whole);
      var y, r := 200 * part + whole, Percent(part, whole);
      assert r == y / (2 * whole);
      QuotientFits(y, 2 * whole);
      RoundsHalfUp(r, part, whole);
    } else {
      NoPercent(part);
    }
  }

  lemma NoPercent(part: nat)
    ensures IsPercent(Percent(part, 0), part, 0)
  {
  }

  lemma QuotientFits(y: nat, d: nat)
    requires d > 0
    ensures d * (y / d) <= y < d * (y / d) + d
  {
  }

  lemma RoundsHalfUp(r: nat, part: nat, whole: nat)
    requires whole > 0 && 2 * whole * r <= 200 * part + whole < 2 * whole * r + 2 * whole
    ensures IsPercent(r, part, whole)
  {
    assert whole * (2 * r - 1) == 2 * whole * r - whole;
    assert whole * (2 * r + 1) == 2 * whole * r + whole;
  }

  /**
   * The report counts the users with a turn today, in the last seven and in the last thirty days, the
   * latter by whether they had one before, and all users; the ratio is a rounded percentage.
   */
  lemma ActivityExactly(x: Input)
    ensures var r, today := ReportFor(x), Today(x);
            && r.dau == |ActiveBetween(x, today, today)| && r.wau == |ActiveBetween(x, today - 6, today)|
            && r.mau == |ActiveBetween(x, today - 29, today)| && IsPercent(r.stickiness, r.dau, r.mau)
            && r.newUsers == |NewBetween(x, today - 29, today)| && r.returning == |ReturningBetween(x, today - 29, today)|
            && r.users == |Authors(x)| && r.sessions == |x.sessions|
  {
    hide TallyOf, ActiveUsers, NewUsers, Returning, Weeks, Rows, Percentile, SortNumbers, Days, ActiveBetween, NewBetween,
         ReturningBetween, Authors, Consistent, Percent, IsPercent, Distinct;
    var t, today := TallyOf(x), Today(x);
    UsersAre(x);
    UsersDistinct(t);
    TallyIs(x);
    ActiveIs(x, today, 1);
    ActiveIs(x, today, 7);
    ActiveIs(x, today, 30);
    NewIs(x, today);
    ReturningIs(x, today);
    PercentFits(ReportFor(x).dau, ReportFor(x).mau);
    var all := (u: Id) => true;
    CountIsSize(t.users, all, Authors(x));
    CountAll(t.users, all);
  }

  lemma TallyIs(x: Input)
    ensures TallyOf(x) == Gathered(x.participants, x.turns, x.sessions)
  {
  }

  lemma {:induction false} CountAll(us: seq<Id>, p: Id -> bool)
    requires forall u :: p(u)
    ensures CountWhere(us, p) == |us|
  {
    if us != [] {
      CountAll(us[1..], p);
    }
  }

  // ---------------------------------------------------------------------------
  // Cohorts
  // ---------------------------------------------------------------------------

  lemma WeekIs(x: Input, u: Id, week: int)
    ensures week in WeeksOf(TallyOf(x), u) <==> ActsInWeek(x, u, week)
  {
    hide TallyOf, Days, Acts;
    DaysAre(x, u);
    if week in WeeksOf(TallyOf(x), u) {
      var d :| d in Days(TallyOf(x), u) && WeekOf(d) == week;
      assert 7 * week <= d <= 7 * week + 6 && Acts(x, u, d);
    }
    if d :| 7 * week <= d <= 7 * week + 6 && Acts(x, u, d) {
      assert WeekOf(d) == week;
    }
  }

  lemma FirstWeekIs(x: Input, u: Id, week: int)
    requires Days(TallyOf(x), u) != {}
    ensures FirstWeek(TallyOf(x), u) == week <==> ActsInWeek(x, u, week) && !ActsBefore(x, u, 7 * week)
  {
    hide TallyOf, Days, Acts, WeeksOf, ActsInWeek;
    var t := TallyOf(x);
    var first := FirstWeek(t, u);
    WeekIs(x, u, week);
    WeekIs(x, u, first);
    forall d | Acts(x, u, d) ensures first <= WeekOf(d) {
      WeekOfAct(x, u, d);
      WeekIs(x, u, WeekOf(d));
    }
    if first < week {
      WeekBefore(x, u, first, week);
    }
  }

  lemma WeekOfAct(x: Input, u: Id, d: int)
    requires Acts(x, u, d)
    ensures ActsInWeek(x, u, WeekOf(d)) && 7 * WeekOf(d) <= d
  {
    hide Acts;
  }

  lemma WeekBefore(x: Input, u: Id, first: int, week: int)
    requires ActsInWeek(x, u, first) && first < week
    ensures ActsBefore(x, u, 7 * week)
  {
    hide Acts;
  }

  /** The members of a cohort, and those of them who are active in a later week. */
  lemma CohortIs(x: Input, week: int, later: int)
    ensures HaveDays(TallyOf(x), TallyOf(x).users)
    ensures var t := TallyOf(x);
            var members := Members(t, t.users, week);
            |members| == |Joining(x, week)| && ActiveIn(t, members, later) == |StillActive(x, week, later)|
  {
    hide TallyOf, Days, Acts, Authors, Consistent, Distinct, WeeksOf, ActsInWeek, ActsBefore, FirstWeek, Members, ActiveIn;
    var t := TallyOf(x);
    UsersAre(x);
    UsersDistinct(t);
    var first := map u | u in t.users :: FirstWeek(t, u);
    var p := (u: Id) => u in first && first[u] == week;
    var q := (u: Id) => u in first && first[u] == week && later in WeeksOf(t, u);
    forall u | u in t.users
      ensures p(u) <==> u in Joining(x, week)
      ensures q(u) <==> u in StillActive(x, week, later)
    {
      FirstWeekIs(x, u, week);
      WeekIs(x, u, later);
    }
    MembersCount(t, t.users, week, p);
    CountIsSize(t.users, p, Joining(x, week));
    RetainedCount(t, t.users, week, later, q);
    CountIsSize(t.users, q, StillActive(x, week, later));
  }

  /** A cohort's row, from the turns. */
  ghost predicate IsRow(x: Input, row: Row, week: int) {
    && row.week == week && row.size == |Joining(x, week)| && |row.retained| == 5
    && forall k :: 0 <= k < 5 ==> IsPercent(row.retained[k], |StillActive(x, week, week + k)|, row.size)
  }

  lemma RowIs(x: Input, week: int)
    ensures HaveDays(TallyOf(x), TallyOf(x).users)
    ensures IsRow(x, RowOf(TallyOf(x), Members(TallyOf(x), TallyOf(x).users, week), week), week)
  {
    hide TallyOf, Members, ActiveIn, Joining, StillActive, HaveDays, IsPercent, Percent, Consistent;
    var t := TallyOf(x);
    UsersAre(x);
    var row := RowOf(t, Members(t, t.users, week), week);
    CohortIs(x, week, week);
    forall k: nat | k < 5 ensures IsPercent(row.retained[k], |StillActive(x, week, week + k)|, row.size) {
      CohortIs(x, week, week + k);
      PercentFits(ActiveIn(t, Members(t, t.users, week), week + k), row.size);
    }
  }

  lemma CohortWeeksAre(x: Input)
    ensures HaveDays(TallyOf(x), TallyOf(x).users)
    ensures var weeks := Weeks(TallyOf(x), TallyOf(x).users);
            AscendsWeeks(weeks) && forall w :: w in weeks <==> exists u :: u in Joining(x, w)
  {
    hide TallyOf, Days, Acts, Authors, Consistent, FirstWeek, ActsInWeek, ActsBefore, Weeks, AscendsWeeks;
    var t := TallyOf(x);
    UsersAre(x);
    WeeksSorted(t, t.users);
    assert forall k :: 0 <= k < |t.users| ==> t.users[k] in t.users;
    forall w ensures w in Weeks(t, t.users) <==> exists u :: u in Joining(x, w) {
      if k :| 0 <= k < |t.users| && FirstWeek(t, t.users[k]) == w {
        FirstWeekIs(x, t.users[k], w);
        assert t.users[k] in Joining(x, w);
      }
      if u :| u in Joining(x, w) {
        var k :| 0 <= k < |t.users| && t.users[k] == u;
        FirstWeekIs(x, u, w);
      }
    }
  }

  /**
   * The cohorts are those of the last eight weeks in which users had their first turn, in ascending
   * order; each lists its size and the percentages of it that were active in its first and the four
   * following weeks.
   */
  lemma CohortsExactly(x: Input, k: nat) returns (weeks: seq<int>)
    ensures AscendsWeeks(weeks) && forall w :: w in weeks <==> exists u :: u in Joining(x, w)
    ensures var rows := ReportFor(x).cohorts;
            && |rows| == (if |weeks| < 8 then |weeks| else 8)
            && (k < |rows| ==> IsRow(x, rows[k], weeks[|weeks| - |rows| + k]))
  {
    hide TallyOf, ActiveUsers, NewUsers, Returning, Weeks, Percentile, SortNumbers, Days, Joining, Consistent, IsRow,
         AscendsWeeks, RowOf, Percent, HaveDays, Members;
    var t := TallyOf(x);
    TallyIs(x);
    UsersAre(x);
    CohortWeeksAre(x);
    weeks := Weeks(t, t.users);
    var n := if |weeks| < 8 then 0 else |weeks| - 8;
    if n + k < |weeks| {
      RowIs(x, weeks[n + k]);
    }
  }

  // ---------------------------------------------------------------------------
  // Per user
  // ---------------------------------------------------------------------------

  function TurnValues(x: Input, us: seq<Id>): seq<nat> {
    if us == [] then [] else [TurnsBy(x, x.turns, us[0])] + TurnValues(x, us[1..])
  }

  function SessionValues(x: Input, us: seq<Id>): seq<nat> {
    if us == [] then [] else [|SessionsBy(x, us[0])|] + SessionValues(x, us[1..])
  }

  lemma {:induction false} ValuesAre(x: Input, us: seq<Id>)
    ensures TurnCounts(TallyOf(x), us) == TurnValues(x, us) && SessionCounts(TallyOf(x), us) == SessionValues(x, us)
  {
    hide TallyOf, TurnsBy, SessionsBy, TurnsOf, SessionsOf;
    if us != [] {
      TotalsAre(x, us[0]);
      ValuesAre(x, us[1..]);
    }
  }

  lemma {:induction false} InsertCounts(n: nat, ns: seq<nat>, v: int)
    ensures CountUpTo(InsertNumber(n, ns), v) == CountUpTo(ns, v) + if n <= v then 1 else 0
  {
    if ns != [] && n > ns[0] {
      InsertCounts(n, ns[1..], v);
      assert ([ns[0]] + InsertNumber(n, ns[1..]))[1..] == InsertNumber(n, ns[1..]);
    } else {
      assert ([n] + ns)[1..] == ns;
    }
  }

  lemma {:induction false} SortCounts(ns: seq<nat>, v: int)
    ensures CountUpTo(SortNumbers(ns), v) == CountUpTo(ns, v)
  {
    hide InsertNumber;
    if ns != [] {
      SortCounts(ns[1..], v);
      InsertCounts(ns[0], SortNumbers(ns[1..]), v);
    }
  }

  lemma SortHolds(ns: seq<nat>)
    ensures forall v :: v in SortNumbers(ns) <==> v in ns
  {
    hide SortNumbers;
    SortNumbersSorts(ns);
    forall v ensures v in SortNumbers(ns) <==> v in ns {
      assert v in multiset(ns) <==> v in ns;
      assert v in multiset(SortNumbers(ns)) <==> v in SortNumbers(ns);
    }
  }

  lemma RankIs(ns: seq<nat>, p: nat)
    requires p <= 100
    ensures IsNearestRank(ns, p, Percentile(SortNumbers(ns), p))
  {
    hide SortNumbers, CountUpTo, Percentile;
    var sorted := SortNumbers(ns);
    SortNumbersSorts(ns);
    SortHolds(ns);
    if ns == [] {
      NoPercentile(p);
    } else {
      var v := Percentile(sorted, p);
      NearestRank(sorted, p, v);
      SortCounts(ns, v);
      forall w | w in ns && w < v ensures 100 * CountUpTo(ns, w) < p * |ns| {
        NearestRank(sorted, p, w);
        SortCounts(ns, w);
      }
    }
  }

  lemma NoPercentile(p: nat)
    ensures Percentile([], p) == 0
  {
  }

  /** The percentiles are those of the turns and of the sessions of all users. */
  lemma PerUserExactly(x: Input) returns (users: seq<Id>)
    ensures Distinct(users) && forall u :: u in users <==> u in Authors(x)
    ensures var r, turns, sessions := ReportFor(x), TurnValues(x, users), SessionValues(x, users);
            && IsNearestRank(turns, 50, r.turns50) && IsNearestRank(turns, 95, r.turns95)
            && IsNearestRank(sessions, 50, r.sessions50) && IsNearestRank(sessions, 95, r.sessions95)
  {
    hide TallyOf, ActiveUsers, NewUsers, Returning, Weeks, Rows, Percentile, SortNumbers, Days, Authors, Consistent,
         IsNearestRank, Percent, Distinct, TurnValues, SessionValues, TurnCounts, SessionCounts, HaveDays;
    var t := TallyOf(x);
    TallyIs(x);
    UsersAre(x);
    UsersDistinct(t);
    users := t.users;
    ValuesAre(x, users);
    RankIs(TurnValues(x, users), 50);
    RankIs(TurnValues(x, users), 95);
    RankIs(SessionValues(x, users), 50);
    RankIs(SessionValues(x, users), 95);
  }
}
