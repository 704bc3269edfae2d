// When the order of declarations decides which workloads get a secret.

module SecretOrder {
  import opened Results
  import opened Texts
  import opened TextLines
  import opened SecretRouting

  // ---------------------------------------------------------------------------
  // When the order matters
  // ---------------------------------------------------------------------------

  ghost predicate DeclaresRoute(ds: seq<Declaration>, name: Text, r: Route, joins: bool) {
    exists k :: 0 <= k < |ds| && ds[k].name == name && ds[k].route == r && ds[k].joins == joins
  }

  ghost predicate DeclaresNeed(ds: seq<Declaration>, name: Text, joins: bool) {
    exists k :: 0 <= k < |ds| && ds[k].name == name && ds[k].required && ds[k].joins == joins
  }

  /** Nothing declares the secret, or what joins it adds nothing that is not declared anyway. */
  ghost predicate IsOrderFree(ds: seq<Declaration>, name: Text) {
    DeclaredBefore(ds, |ds|, name) ==>
      && (forall r :: DeclaresRoute(ds, name, r, true) ==> DeclaresRoute(ds, name, r, false))
      && (DeclaresNeed(ds, name, true) ==> DeclaresNeed(ds, name, false))
  }

  ghost predicate SameResult(ds: seq<Declaration>, es: seq<Declaration>, name: Text) {
    var s, t := Find(MergeAll([], ds), name), Find(MergeAll([], es), name);
    && s.Some? == t.Some?
    && (s.Some? ==>
          && (forall r :: HasRoute(s.value, r) <==> HasRoute(t.value, r))
          && s.value.required == t.value.required)
  }

  lemma SameMembers(ds: seq<Declaration>, es: seq<Declaration>)
    requires multiset(ds) == multiset(es)
    ensures forall d :: d in ds <==> d in es
  {
    forall d ensures d in ds <==> d in es {
      assert d in ds <==> d in multiset(ds);
    }
  }

  /** Declarations that do not join always apply; those that do at most if something declares the secret. */
  lemma RoutesBetween(ds: seq<Declaration>, name: Text, r: Route)
    ensures DeclaresRoute(ds, name, r, false) ==> Routes(ds, name, r)
    ensures Routes(ds, name, r) ==>
              || DeclaresRoute(ds, name, r, false)
              || (DeclaresRoute(ds, name, r, true) && DeclaredBefore(ds, |ds|, name))
    ensures DeclaresNeed(ds, name, false) ==> Requires(ds, name)
    ensures Requires(ds, name) ==>
              DeclaresNeed(ds, name, false) || (DeclaresNeed(ds, name, true) && DeclaredBefore(ds, |ds|, name))
  {
    if DeclaresRoute(ds, name, r, false) {
      var k :| 0 <= k < |ds| && ds[k].name == name && ds[k].route == r && !ds[k].joins;
      assert Counts(ds, k);
    }
    if DeclaresNeed(ds, name, false) {
      var k :| 0 <= k < |ds| && ds[k].name == name && ds[k].required && !ds[k].joins;
      assert Counts(ds, k);
    }
  }

  lemma DeclaredAlike(ds: seq<Declaration>, es: seq<Declaration>, name: Text, r: Route, joins: bool)
    requires forall d :: d in ds ==> d in es
    ensures DeclaresRoute(ds, name, r, joins) ==> DeclaresRoute(es, name, r, joins)
    ensures DeclaresNeed(ds, name, joins) ==> DeclaresNeed(es, name, joins)
    ensures DeclaredBefore(ds, |ds|, name) ==> DeclaredBefore(es, |es|, name)
  {
    forall k | 0 <= k < |ds| ensures exists j :: 0 <= j < |es| && es[j] == ds[k] {
      assert ds[k] in es;
    }
  }

  lemma FreeOrdersAgree(ds: seq<Declaration>, es: seq<Declaration>, name: Text)
    requires IsOrderFree(ds, name) && forall d :: d in ds <==> d in es
    ensures SameResult(ds, es, name)
  {
    hide MergeAll, HasRoute, Find, Routes, Requires, DeclaresRoute, DeclaresNeed, DeclaredBefore;
    forall r ensures DeclaredBefore(ds, |ds|, name) ==> (Routes(ds, name, r) <==> Routes(es, name, r))
             ensures DeclaredBefore(ds, |ds|, name) ==> (Requires(ds, name) <==> Requires(es, name))
             ensures DeclaredBefore(ds, |ds|, name) <==> DeclaredBefore(es, |es|, name) {
      RoutesBetween(ds, name, r);
      RoutesBetween(es, name, r);
      DeclaredAlike(ds, es, name, r, true);
      DeclaredAlike(ds, es, name, r, false);
      DeclaredAlike(es, ds, name, r, true);
      DeclaredAlike(es, ds, name, r, false);
    }
    MergedIs(ds, name, Own([]));
    MergedIs(es, name, Own([]));
    var s, t := Find(MergeAll([], ds), name), Find(MergeAll([], es), name);
    if s.Some? {
      forall r ensures HasRoute(s.value, r) <==> HasRoute(t.value, r) {
        MergedIs(ds, name, r);
        MergedIs(es, name, r);
      }
    }
  }

  function Joining(ds: seq<Declaration>): seq<Declaration> {
    if ds == [] then [] else (if ds[0].joins then [ds[0]] else []) + Joining(ds[1..])
  }

  function Declaring(ds: seq<Declaration>): seq<Declaration> {
    if ds == [] then [] else (if ds[0].joins then [] else [ds[0]]) + Declaring(ds[1..])
  }

  lemma {:induction false} Parts(ds: seq<Declaration>)
    ensures multiset(Joining(ds) + Declaring(ds)) == multiset(ds)
    decreases |ds|
  {
    hide Joining, Declaring;
    PartsStep(ds);
    if ds != [] {
      var a, b := Joining(ds[1..]), Declaring(ds[1..]);
      Parts(ds[1..]);
      OnePart(ds, a, b);
    } else {
      assert Joining(ds) + Declaring(ds) == ds;
    }
  }

  lemma PartsStep(ds: seq<Declaration>)
    ensures Joining(ds) == if ds == [] then [] else if ds[0].joins then [ds[0]] + Joining(ds[1..]) else Joining(ds[1..])
    ensures Declaring(ds) == if ds == [] then [] else if ds[0].joins then Declaring(ds[1..]) else [ds[0]] + Declaring(ds[1..])
  {
    if ds != [] {
      assert [] + Joining(ds[1..]) == Joining(ds[1..]) && [] + Declaring(ds[1..]) == Declaring(ds[1..]);
    }
  }

  lemma {:induction false} PartsJoin(ds: seq<Declaration>)
    ensures forall k :: 0 <= k < |Joining(ds)| ==> Joining(ds)[k].joins
    ensures forall k :: 0 <= k < |Declaring(ds)| ==> !Declaring(ds)[k].joins
  {
    if ds != [] {
      PartsJoin(ds[1..]);
    }
  }

  lemma OnePart(ds: seq<Declaration>, a: seq<Declaration>, b: seq<Declaration>)
    requires ds != [] && multiset(a + b) == multiset(ds[1..])
    ensures multiset(([ds[0]] + a) + b) == multiset(ds)
    ensures multiset(a + ([ds[0]] + b)) == multiset(ds)
  {
    assert ds == [ds[0]] + ds[1..];
    MovesInFront(a, ds[0], b);
  }

  lemma MovesInFront(a: seq<Declaration>, d: Declaration, b: seq<Declaration>)
    ensures multiset(([d] + a) + b) == multiset([d]) + multiset(a + b)
    ensures multiset(a + ([d] + b)) == multiset([d]) + multiset(a + b)
  {
  }

  /** With the joins in front, none of them applies; with them behind, all do. */
  lemma JoinsFirst(a: seq<Declaration>, b: seq<Declaration>, name: Text, r: Route)
    requires (forall k :: 0 <= k < |a| ==> a[k].joins) && forall k :: 0 <= k < |b| ==> !b[k].joins
    ensures Routes(a + b, name, r) ==> DeclaresRoute(b, name, r, false)
    ensures Requires(a + b, name) ==> DeclaresNeed(b, name, false)
    ensures DeclaredBefore(b, |b|, name) && DeclaresRoute(a, name, r, true) ==> Routes(b + a, name, r)
    ensures DeclaredBefore(b, |b|, name) && DeclaresNeed(a, name, true) ==> Requires(b + a, name)
  {
    var ab, ba := a + b, b + a;
    assert forall k :: 0 <= k < |a| ==> ab[k] == a[k] && !Counts(ab, k);
    assert forall k :: |a| <= k < |ab| ==> ab[k] == b[k - |a|];
    if DeclaredBefore(b, |b|, name) {
      var j :| 0 <= j < |b| && b[j].name == name && !b[j].joins;
      assert ba[j] == b[j];
      forall k | 0 <= k < |a| && a[k].name == name ensures ba[|b| + k] == a[k] && Counts(ba, |b| + k) {
      }
    }
  }

  /** If the order of the joins makes no difference, what joins adds nothing. */
  lemma TwoOrdersAgree(ds: seq<Declaration>, name: Text)
    requires SameResult(Joining(ds) + Declaring(ds), Declaring(ds) + Joining(ds), name)
    ensures IsOrderFree(ds, name)
  {
    hide MergeAll, HasRoute, Find, Routes, Requires, DeclaresRoute, DeclaresNeed, DeclaredBefore;
    var a, b := Joining(ds), Declaring(ds);
    Parts(ds);
    PartsJoin(ds);
    assert multiset(a + b) == multiset(b + a);
    SameMembers(ds, a + b);
    MembersSplit(ds, name, Own([]));
    MergedIs(a + b, name, Own([]));
    MergedIs(b + a, name, Own([]));
    SameMembers(ds, b + a);
    DeclaredAlike(ds, a + b, name, Own([]), true);
    DeclaredAlike(ds, b + a, name, Own([]), true);
    forall r ensures DeclaredBefore(ds, |ds|, name) && DeclaresRoute(ds, name, r, true) ==> DeclaresRoute(ds, name, r, false)
             ensures DeclaredBefore(ds, |ds|, name) && DeclaresNeed(ds, name, true) ==> DeclaresNeed(ds, name, false) {
      MembersSplit(ds, name, r);
      JoinsFirst(a, b, name, r);
      MergedIs(a + b, name, r);
      MergedIs(b + a, name, r);
    }
  }

  lemma MembersSplit(ds: seq<Declaration>, name: Text, r: Route)
    ensures DeclaresRoute(ds, name, r, true) ==> DeclaresRoute(Joining(ds), name, r, true)
    ensures DeclaresRoute(Declaring(ds), name, r, false) ==> DeclaresRoute(ds, name, r, false)
    ensures DeclaresNeed(ds, name, true) ==> DeclaresNeed(Joining(ds), name, true)
    ensures DeclaresNeed(Declaring(ds), name, false) ==> DeclaresNeed(ds, name, false)
    ensures DeclaredBefore(ds, |ds|, name) ==> DeclaredBefore(Declaring(ds), |Declaring(ds)|, name)
  {
    Parts(ds);
    PartsJoin(ds);
    var a, b := Joining(ds), Declaring(ds);
    SameMembers(ds, a + b);
    forall k | 0 <= k < |ds| ensures ds[k] in a || ds[k] in b {
      assert ds[k] in a + b;
    }
    forall k | 0 <= k < |b| ensures b[k] in ds {
      assert b[k] in a + b;
    }
  }

  /**
   * All orders of the same declarations give the secret the same routes and requirement if and only
   * if nothing declares it, or all that its joins add is declared without a join, too.
   */
  lemma OrdersAgree(ds: seq<Declaration>, name: Text)
    ensures (forall es :: multiset(es) == multiset(ds) ==> SameResult(ds, es, name)) <==> IsOrderFree(ds, name)
  {
    hide SameResult, IsOrderFree;
    if IsOrderFree(ds, name) {
      forall es | multiset(es) == multiset(ds) ensures SameResult(ds, es, name) {
        SameMembers(ds, es);
        FreeOrdersAgree(ds, es, name);
      }
    }
    if forall es :: multiset(es) == multiset(ds) ==> SameResult(ds, es, name) {
      var a, b := Joining(ds), Declaring(ds);
      Parts(ds);
      assert multiset(a + b) == multiset(b + a);
      assert SameResult(ds, a + b, name) && SameResult(ds, b + a, name);
      SameTwice(ds, a + b, b + a, name);
      TwoOrdersAgree(ds, name);
    }
  }

  lemma SameTwice(ds: seq<Declaration>, es: seq<Declaration>, fs: seq<Declaration>, name: Text)
    requires SameResult(ds, es, name) && SameResult(ds, fs, name)
    ensures SameResult(es, fs, name)
  {
    hide MergeAll, HasRoute, Find;
  }

  // ---------------------------------------------------------------------------
  // Configurations
  // ---------------------------------------------------------------------------

  /** The configuration with these plugins, and with no other declarations behind the first-party ones. */
  function WithPlugins(c: Config, ps: seq<Plugin>): Config {
    c.(plugins := ps, secretEnv := [], sandboxSecrets := [])
  }

  lemma {:induction false} SpecsIgnorePlugins(c: Config, d: Config, specs: seq<Spec>)
    requires d == WithPlugins(c, d.plugins)
    ensures FromSpecs(d, specs) == FromSpecs(c, specs)
  {
    if specs != [] {
      ConditionIgnoresPlugins(c, d, specs[0].required);
      SpecsIgnorePlugins(c, d, specs[1..]);
    }
  }

  lemma ConditionIgnoresPlugins(c: Config, d: Config, r: Required)
    requires d == WithPlugins(c, d.plugins)
    ensures RequirementFor(d, r) == RequirementFor(c, r)
  {
    if r.When? {
      MatchesIgnoresPlugins(c, d, r.condition);
    }
  }

  lemma {:induction false} MatchesIgnoresPlugins(c: Config, d: Config, x: Condition)
    requires d == WithPlugins(c, d.plugins)
    ensures Matches(d, x) <==> Matches(c, x)
  {
    hide Trim;
    match x {
      case All(xs) =>
        forall k | 0 <= k < |xs| ensures Matches(d, xs[k]) <==> Matches(c, xs[k]) {
          MatchesIgnoresPlugins(c, d, xs[k]);
        }
      case Any(xs) =>
        forall k | 0 <= k < |xs| ensures Matches(d, xs[k]) <==> Matches(c, xs[k]) {
          MatchesIgnoresPlugins(c, d, xs[k]);
        }
      case _ =>
    }
  }

  /**
   * If no enabled first-party service declares the signing secret, a plugin that is listed in front
   * of the plugin that declares it does not get it, and gets it if the two are listed the other way.
   */
  lemma PluginOrderMatters(c: Config, specs: seq<Spec>, before: (Text, Text) -> bool, a: Text, b: Text, text: Text)
    requires IsOrder(before) && a != b
    requires !DeclaredBefore(FromSpecs(c, specs), |FromSpecs(c, specs)|, SIGNING)
    ensures var joiner, owner := Plugin(a, []), Plugin(b, [PluginSecret(SIGNING, true, text)]);
            var early := Find(Computed(WithPlugins(c, [joiner, owner]), specs, before), SIGNING);
            var late := Find(Computed(WithPlugins(c, [owner, joiner]), specs, before), SIGNING);
            && early.Some? && late.Some?
            && !HasRoute(early.value, Own(a)) && HasRoute(late.value, Own(a))
  {
    hide Units, MergeAll, SortByName, HasRoute, Find, FromSpecs;
    var joiner, owner := Plugin(a, []), Plugin(b, [PluginSecret(SIGNING, true, text)]);
    var c1, c2 := WithPlugins(c, [joiner, owner]), WithPlugins(c, [owner, joiner]);
    var first := FromSpecs(c, specs);
    OneSecret(owner, PluginSecret(SIGNING, true, text));
    SpecsIgnorePlugins(c, c1, specs);
    SpecsIgnorePlugins(c, c2, specs);
    SpecsDoNotJoin(c, specs);
    var join := Declaration(SIGNING, Own(a), false, true, [], None, false);
    var joinOwner := Declaration(SIGNING, Own(b), false, true, [], None, false);
    var own := Declaration(SIGNING, Own(b), true, false, text, None, false);
    TwoPlugins(c1, specs, joiner, owner, [join], [joinOwner, own]);
    TwoPlugins(c2, specs, owner, joiner, [joinOwner, own], [join]);
    EarlyIsLost(first, join, joinOwner, own);
    LateApplies(first, join, joinOwner, own);
    ComputedIs(c1, specs, before, SIGNING, Own(a));
    ComputedIs(c2, specs, before, SIGNING, Own(a));
  }

  lemma TwoPlugins(c: Config, specs: seq<Spec>, p: Plugin, q: Plugin, ps: seq<Declaration>, qs: seq<Declaration>)
    requires c.plugins == [p, q] && c.secretEnv == [] && c.sandboxSecrets == []
    requires FromPlugin(p) == ps && FromPlugin(q) == qs
    ensures Declarations(c, specs) == FromSpecs(c, specs) + (ps + qs)
  {
    hide FromSpecs, FromPlugin;
    assert [p, q][1..] == [q] && [q][1..] == [];
    assert FromPlugins([]) == [] && FromPlugins([q]) == qs + [] == qs && FromPlugins([p, q]) == ps + qs;
    assert FromSpecs(c, specs) + (ps + qs) + [] + [] == FromSpecs(c, specs) + (ps + qs);
  }

  lemma OneSecret(p: Plugin, x: PluginSecret)
    requires p.secrets == [x]
    ensures FromPlugin(p) == [Declaration(SIGNING, Own(p.name), false, true, [], None, false),
                              Declaration(x.name, Own(p.name), x.required, false, x.description, None, false)]
  {
    hide Units;
    assert [x][1..] == [] && FromPluginSecrets(p, []) == [];
  }

  lemma EarlyIsLost(first: seq<Declaration>, join: Declaration, joinOwner: Declaration, own: Declaration)
    requires forall k :: 0 <= k < |first| ==> !first[k].joins
    requires !DeclaredBefore(first, |first|, SIGNING)
    requires join.name == SIGNING && joinOwner.name == SIGNING && own.name == SIGNING
    requires join.joins && joinOwner.joins && !own.joins && own.route != join.route && joinOwner.route != join.route
    ensures var ds := first + ([join] + [joinOwner, own]);
            DeclaredBefore(ds, |ds|, SIGNING) && !Routes(ds, SIGNING, join.route)
  {
    hide Units;
    var ds := first + ([join] + [joinOwner, own]);
    var n := |first|;
    assert ds[n] == join && ds[n + 1] == joinOwner && ds[n + 2] == own;
    forall k | 0 <= k < n ensures ds[k] == first[k] && ds[k].name != SIGNING {
    }
    assert !Counts(ds, n);
  }

  lemma LateApplies(first: seq<Declaration>, join: Declaration, joinOwner: Declaration, own: Declaration)
    requires join.name == SIGNING && own.name == SIGNING && !own.joins
    ensures var ds := first + ([joinOwner, own] + [join]);
            DeclaredBefore(ds, |ds|, SIGNING) && Routes(ds, SIGNING, join.route)
  {
    hide Units;
    var ds := first + ([joinOwner, own] + [join]);
    var n := |first|;
    assert ds[n + 1] == own && ds[n + 2] == join;
    assert Counts(ds, n + 2);
  }

  /** A computed secret has the routes of the declarations that apply to it. */
  lemma ComputedIs(c: Config, specs: seq<Spec>, before: (Text, Text) -> bool, name: Text, r: Route)
    requires IsOrder(before)
    ensures var s, ds := Find(Computed(c, specs, before), name), Declarations(c, specs);
            && (s.Some? <==> DeclaredBefore(ds, |ds|, name))
            && (s.Some? ==> (HasRoute(s.value, r) <==> Routes(ds, name, r)) && (s.value.required <==> Requires(ds, name)))
  {
    hide Units, Declarations, MergeAll, SortByName, HasRoute, Requires, DeclaredBefore, Find, Routes;
    var ds := Declarations(c, specs);
    var merged := MergeAll([], ds);
    MergedNamesDistinct([], ds);
    Sorts(merged, before);
    AscendingDistinct(SortByName(merged, before), before);
    FindIn(merged, name);
    FindIn(SortByName(merged, before), name);
    MergedIs(ds, name, r);
  }

  /** The core is enabled, as loading a configuration demands, and the core declares the signing secret. */
  ghost predicate IsLoaded(c: Config, specs: seq<Spec>) {
    && CORE in c.services
    && exists k :: 0 <= k < |specs| && specs[k].name == SIGNING && specs[k].service == CORE && specs[k].required == Always(true)
  }

  lemma {:induction false} LoadedDeclares(c: Config, specs: seq<Spec>)
    requires IsLoaded(c, specs)
    ensures DeclaredBefore(FromSpecs(c, specs), |FromSpecs(c, specs)|, SIGNING)
  {
    hide Units, RequirementFor;
    var first := FromSpec(c, specs[0]);
    var rest := FromSpecs(c, specs[1..]);
    if specs[0].name == SIGNING && specs[0].service == CORE && specs[0].required == Always(true) {
      CoreDeclares(c, specs[0]);
      assert (first + rest)[0] == first[0];
    } else {
      assert exists k :: 0 <= k < |specs[1..]| && specs[1..][k].name == SIGNING && specs[1..][k].service == CORE
                         && specs[1..][k].required == Always(true) by {
        var k :| 0 <= k < |specs| && specs[k].name == SIGNING && specs[k].service == CORE && specs[k].required == Always(true);
        assert specs[1..][k - 1] == specs[k];
      }
      LoadedDeclares(c, specs[1..]);
      var j :| 0 <= j < |rest| && rest[j].name == SIGNING && !rest[j].joins;
      assert (first + rest)[|first| + j] == rest[j];
    }
  }

  lemma CoreDeclares(c: Config, s: Spec)
    requires CORE in c.services && s.name == SIGNING && s.service == CORE && s.required == Always(true)
    ensures |FromSpec(c, s)| == 1 && FromSpec(c, s)[0].name == SIGNING && !FromSpec(c, s)[0].joins
  {
    hide Units, Matches;
  }

  /**
   * Two configurations that can be loaded and make the same declarations, in whatever order they list
   * their plugins and secrets, give every secret the same routes and requirement.
   */
  lemma LoadedConfigsAgree(c: Config, d: Config, specs: seq<Spec>, before: (Text, Text) -> bool, name: Text, r: Route)
    requires IsOrder(before) && IsLoaded(c, specs) && IsLoaded(d, specs)
    requires forall x :: x in Declarations(c, specs) <==> x in Declarations(d, specs)
    ensures var s, t := Find(Computed(c, specs, before), name), Find(Computed(d, specs, before), name);
            && s.Some? == t.Some?
            && (s.Some? ==> (HasRoute(s.value, r) <==> HasRoute(t.value, r)) && s.value.required == t.value.required)
  {
    hide Units, Declarations, Computed, HasRoute, Find, FromSpecs, IsLoaded, Counts, Routes, Requires, DeclaredBefore;
    LoadedDeclares(c, specs);
    LoadedDeclares(d, specs);
    SigningDeclaredFirst(c, specs);
    SigningDeclaredFirst(d, specs);
    SameDeclarations(Declarations(c, specs), Declarations(d, specs), name, r);
    SameDeclarations(Declarations(d, specs), Declarations(c, specs), name, r);
    ComputedIs(c, specs, before, name, r);
    ComputedIs(d, specs, before, name, r);
  }
}
