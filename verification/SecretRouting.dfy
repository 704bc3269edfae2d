// Which secrets a deployment needs and to which workloads and variables they are routed.

module SecretRouting {
  import opened Results
  import opened Texts
  import opened TextLines

  /** The code units of a literal. */
  function Units(s: string): (t: Text)
    ensures |t| == |s|
    ensures forall k :: 0 <= k < |s| && (s[k] as int) < 0x1_0000 ==> t[k] == s[k] as int
  {
    if s == [] then [] else [(s[0] as int) % 0x1_0000] + Units(s[1..])
  }

  const SIGNING: Text := Units("CORE_SIGNING_SECRET")
  const SANDBOX: Text := Units("sandbox")
  const CORE: Text := Units("core")
  const AUTH: Text := Units("auth")
  const TRANSPORT: Text := Units("AUTH_EMAIL_TRANSPORT")
  const RESIDENT: Text := Units("FLY_RESIDENT_ENV_")

  // ---------------------------------------------------------------------------
  // Configuration and conditions
  // ---------------------------------------------------------------------------

  datatype Condition =
    | EnvEquals(service: Text, name: Text, value: Text)
    | EnvIn(service: Text, name: Text, values: seq<Text>)
    | EnvAbsent(service: Text, name: Text)
    | EnvAllAbsent(service: Text, names: seq<Text>)
    | EnvPresent(service: Text, name: Text)
    | ServiceEnabled(service: Text)
    | ServiceAbsent(service: Text)
    | All(conditions: seq<Condition>)
    | Any(conditions: seq<Condition>)
    | Target(target: Text)
    | ModelProvider(provider: Text)

  datatype Required = Always(required: bool) | When(condition: Condition, optionalOtherwise: bool)

  datatype Spec = Spec(
    name: Text, service: Text, envName: Option<Text>, required: Required, description: Text, generate: Option<Text>,
    terraform: bool)

  datatype PluginSecret = PluginSecret(name: Text, required: bool, description: Text)
  datatype Plugin = Plugin(name: Text, secrets: seq<PluginSecret>)

  /** `secretEnv` lists (service, variable, secret) in the order in which the entries are sorted. */
  datatype Config = Config(
    services: seq<Text>, target: Text, provider: Text, env: map<(Text, Text), Text>, defaults: map<(Text, Text), Text>,
    plugins: seq<Plugin>, secretEnv: seq<(Text, Text, Text)>, sandboxSecrets: seq<Text>)

  function EnvValue(c: Config, service: Text, name: Text): Option<Text> {
    if (service, name) in c.env then Some(Trim(c.env[(service, name)]))
    else if (service, name) in c.defaults then Some(Trim(c.defaults[(service, name)]))
    else None
  }

  predicate IsBlank(v: Option<Text>) {
    v.None? || v.value == []
  }

  predicate Matches(c: Config, x: Condition) {
    match x
    case EnvEquals(s, n, v) => EnvValue(c, s, n) == Some(v)
    case EnvIn(s, n, vs) => EnvValue(c, s, n).Some? && EnvValue(c, s, n).value in vs
    case EnvAbsent(s, n) => IsBlank(EnvValue(c, s, n))
    case EnvAllAbsent(s, ns) =>
      forall k :: 0 <= k < |ns| ==> (s, ns[k]) !in c.env || Trim(c.env[(s, ns[k])]) == []
    case EnvPresent(s, n) => !IsBlank(EnvValue(c, s, n))
    case ServiceEnabled(s) => s in c.services
    case ServiceAbsent(s) => s !in c.services
    case All(xs) => forall k :: 0 <= k < |xs| ==> Matches(c, xs[k])
    case Any(xs) => exists k :: 0 <= k < |xs| && Matches(c, xs[k])
    case Target(t) => c.target == t
    case ModelProvider(p) => c.provider == p
  }

  /** None means that the declaration does not apply. */
  function RequirementFor(c: Config, r: Required): Option<bool> {
    match r
    case Always(b) => Some(b)
    case When(x, optional) => if Matches(c, x) then Some(true) else if optional then Some(false) else None
  }

  /** The condition asks for another mail transport than the configured one. */
  predicate RequiresOtherEmailTransport(c: Config, x: Condition) {
    match x
    case All(xs) => exists k :: 0 <= k < |xs| && RequiresOtherEmailTransport(c, xs[k])
    case Any(xs) => forall k :: 0 <= k < |xs| ==> RequiresOtherEmailTransport(c, xs[k])
    case EnvEquals(s, n, v) =>
      && s == AUTH && n == TRANSPORT && (s, n) in c.env
      && Trim(c.env[(s, n)]) != [] && Trim(c.env[(s, n)]) != v
    case _ => false
  }

  /** Such a condition stays unmet in every configuration with the same transport. */
  lemma {:induction false} OtherTransportNeverMatches(c: Config, d: Config, x: Condition)
    requires RequiresOtherEmailTransport(c, x)
    requires (AUTH, TRANSPORT) in c.env ==>
               (AUTH, TRANSPORT) in d.env && Trim(d.env[(AUTH, TRANSPORT)]) == Trim(c.env[(AUTH, TRANSPORT)])
    ensures !Matches(d, x)
  {
    hide Trim, Units, EnvValue;
    match x {
      case All(xs) =>
        var k :| 0 <= k < |xs| && RequiresOtherEmailTransport(c, xs[k]);
        OtherTransportNeverMatches(c, d, xs[k]);
        assert !Matches(d, xs[k]);
      case Any(xs) =>
        forall k | 0 <= k < |xs| ensures !Matches(d, xs[k]) {
          OtherTransportNeverMatches(c, d, xs[k]);
        }
      case EnvEquals(s, n, v) =>
        OtherValue(d, s, n);
      case _ =>
    }
  }

  lemma OtherValue(c: Config, service: Text, name: Text)
    requires (service, name) in c.env
    ensures EnvValue(c, service, name) == Some(Trim(c.env[(service, name)]))
  {
  }

  // ---------------------------------------------------------------------------
  // Declarations
  // ---------------------------------------------------------------------------

  /** Where a declaration sends its secret: to a service under its own name or under another. */
  datatype Route = Own(service: Text) | As(service: Text, env: Text)

  /** With `joins`, a declaration only adds its route to a secret that has been declared before it. */
  datatype Declaration = Declaration(
    name: Text, route: Route, required: bool, joins: bool, description: Text, generate: Option<Text>, terraform: bool)

  datatype Alias = Alias(service: Text, env: Text)

  datatype Secret = Secret(
    name: Text, services: seq<Text>, aliases: seq<Alias>, required: bool, description: Text, generate: Option<Text>,
    terraform: bool)

  function WithRoute(s: Secret, r: Route): Secret {
    match r
    case Own(service) => if service in s.services then s else s.(services := s.services + [service])
    case As(service, env) =>
      if Alias(service, env) in s.aliases then s else s.(aliases := s.aliases + [Alias(service, env)])
  }

  function Absorb(s: Secret, d: Declaration): Secret {
    WithRoute(s, d.route).(required := s.required || d.required)
  }

  function NewSecret(d: Declaration): Secret {
    WithRoute(Secret(d.name, [], [], d.required, d.description, d.generate, d.terraform), d.route)
  }

  function Find(ss: seq<Secret>, name: Text): Option<Secret> {
    if ss == [] then None else if ss[0].name == name then Some(ss[0]) else Find(ss[1..], name)
  }

  /** One step of the merge; the list is the map in insertion order. */
  function Merge(ss: seq<Secret>, d: Declaration): seq<Secret> {
    if ss == [] then (if d.joins then [] else [NewSecret(d)])
    else if ss[0].name == d.name then [Absorb(ss[0], d)] + ss[1..]
    else [ss[0]] + Merge(ss[1..], d)
  }

  function MergeAll(ss: seq<Secret>, ds: seq<Declaration>): seq<Secret>
    decreases |ds|
  {
    if ds == [] then ss else MergeAll(Merge(ss, ds[0]), ds[1..])
  }

  function FromSpec(c: Config, s: Spec): seq<Declaration> {
    if s.service !in c.services then []
    else match RequirementFor(c, s.required)
         case None => []
         case Some(required) =>
           [Declaration(s.name, match s.envName case Some(env) => As(s.service, env) case None => Own(s.service),
                        required, false, s.description, s.generate, s.terraform)]
  }

  function FromSpecs(c: Config, specs: seq<Spec>): seq<Declaration> {
    if specs == [] then [] else FromSpec(c, specs[0]) + FromSpecs(c, specs[1..])
  }

  function FromPluginSecrets(p: Plugin, ss: seq<PluginSecret>): seq<Declaration> {
    if ss == [] then []
    else [Declaration(ss[0].name, Own(p.name), ss[0].required, false, ss[0].description, None, false)]
         + FromPluginSecrets(p, ss[1..])
  }

  /** A plugin joins the signing secret if there is one by then, and declares its own. */
  function FromPlugin(p: Plugin): seq<Declaration> {
    [Declaration(SIGNING, Own(p.name), false, true, [], None, false)] + FromPluginSecrets(p, p.secrets)
  }

  function FromPlugins(ps: seq<Plugin>): seq<Declaration> {
    if ps == [] then [] else FromPlugin(ps[0]) + FromPlugins(ps[1..])
  }

  function FromSecretEnv(c: Config, es: seq<(Text, Text, Text)>): seq<Declaration> {
    if es == [] then []
    else (if es[0].0 in c.services then
            [Declaration(es[0].2, if es[0].1 == es[0].2 then Own(es[0].0) else As(es[0].0, es[0].1), true, false,
                         Units("Operator secret declared by config secretEnv.") + es[0].0 + Units("."), None, false)]
          else [])
         + FromSecretEnv(c, es[1..])
  }

  function FromSandbox(names: seq<Text>): seq<Declaration> {
    if names == [] then []
    else [Declaration(names[0], Own(SANDBOX), true, false,
                      Units("Organization-wide secret injected into every sandbox as ") + names[0] + Units("."),
                      None, false)]
         + FromSandbox(names[1..])
  }

  /** All declarations of a configuration in the order in which they are merged. */
  function Declarations(c: Config, specs: seq<Spec>): seq<Declaration> {
    FromSpecs(c, specs) + FromPlugins(c.plugins) + FromSecretEnv(c, c.secretEnv) + FromSandbox(c.sandboxSecrets)
  }

  // ---------------------------------------------------------------------------
  // What the merge computes
  // ---------------------------------------------------------------------------

  /** Workload and variable. */
  type Destination = (Text, Text)

  /** Virtual services run inside the core; a sandbox secret reaches it under a longer name. */
  function ServiceDestination(name: Text, service: Text, virtual: set<Text>): Destination {
    if service == SANDBOX then (CORE, RESIDENT + name) else (if service in virtual then CORE else service, name)
  }

  function RouteDestination(name: Text, r: Route, virtual: set<Text>): Destination {
    match r
    case Own(service) => ServiceDestination(name, service, virtual)
    case As(service, env) => (if service in virtual then CORE else service, env)
  }

  ghost predicate HasRoute(s: Secret, r: Route) {
    match r case Own(service) => service in s.services case As(service, env) => Alias(service, env) in s.aliases
  }

  /** The declaration applies: it declares its secret, or joins one that was declared in front of it. */
  ghost predicate Counts(ds: seq<Declaration>, k: nat)
    requires k < |ds|
  {
    ds[k].joins ==> DeclaredBefore(ds, k, ds[k].name)
  }

  ghost predicate DeclaredBefore(ds: seq<Declaration>, k: nat, name: Text)
    requires k <= |ds|
  {
    exists j :: 0 <= j < k && ds[j].name == name && !ds[j].joins
  }

  ghost predicate Routes(ds: seq<Declaration>, name: Text, r: Route) {
    exists k :: 0 <= k < |ds| && ds[k].name == name && ds[k].route == r && Counts(ds, k)
  }

  ghost predicate Requires(ds: seq<Declaration>, name: Text) {
    exists k :: 0 <= k < |ds| && ds[k].name == name && ds[k].required && Counts(ds, k)
  }

  ghost predicate NamesDistinct(ss: seq<Secret>) {
    forall a, b :: 0 <= a < b < |ss| ==> ss[a].name != ss[b].name
  }

  lemma {:induction false} FindMerged(ss: seq<Secret>, d: Declaration, name: Text)
    ensures Find(Merge(ss, d), name) ==
            if name != d.name then Find(ss, name)
            else match Find(ss, name)
                 case Some(s) => Some(Absorb(s, d))
                 case None => if d.joins then None else Some(NewSecret(d))
  {
    if ss != [] && ss[0].name != d.name {
      FindMerged(ss[1..], d, name);
      assert ([ss[0]] + Merge(ss[1..], d))[1..] == Merge(ss[1..], d);
    } else if ss == [] && !d.joins {
      assert [NewSecret(d)][1..] == [];
    }
  }

  lemma {:induction false} MergeLast(ss: seq<Secret>, ds: seq<Declaration>, d: Declaration)
    ensures MergeAll(ss, ds + [d]) == Merge(MergeAll(ss, ds), d)
    decreases |ds|
  {
    hide Merge;
    if ds == [] {
      assert ds + [d] == [d] && [d][1..] == [];
      assert MergeAll(Merge(ss, d), []) == Merge(ss, d);
    } else {
      assert (ds + [d])[1..] == ds[1..] + [d];
      MergeLast(Merge(ss, ds[0]), ds[1..], d);
    }
  }

  /** What one more declaration adds to the routes and to the requirement. */
  lemma OneMore(ds: seq<Declaration>, d: Declaration, name: Text, r: Route)
    ensures var es := ds + [d];
            var applies := d.name == name && (d.joins ==> DeclaredBefore(ds, |ds|, name));
            && (DeclaredBefore(es, |es|, name) <==> DeclaredBefore(ds, |ds|, name) || (d.name == name && !d.joins))
            && (Routes(es, name, r) <==> Routes(ds, name, r) || (applies && d.route == r))
            && (Requires(es, name) <==> Requires(ds, name) || (applies && d.required))
  {
    hide Counts, DeclaredBefore;
    var es := ds + [d];
    var n := |ds|;
    DeclaredMore(ds, d, name);
    CountsMore(ds, d);
    if Routes(ds, name, r) {
      var k :| 0 <= k < n && ds[k].name == name && ds[k].route == r && Counts(ds, k);
      assert es[k] == ds[k];
    }
    if Requires(ds, name) {
      var k :| 0 <= k < n && ds[k].name == name && ds[k].required && Counts(ds, k);
      assert es[k] == ds[k];
    }
    assert es[n] == d;
  }

  lemma DeclaredMore(ds: seq<Declaration>, d: Declaration, name: Text)
    ensures DeclaredBefore(ds + [d], |ds| + 1, name) <==> DeclaredBefore(ds, |ds|, name) || (d.name == name && !d.joins)
  {
    var es := ds + [d];
    assert es[|ds|] == d;
    if DeclaredBefore(ds, |ds|, name) {
      var j :| 0 <= j < |ds| && ds[j].name == name && !ds[j].joins;
      assert es[j] == ds[j];
    }
  }

  lemma DeclaredSame(ds: seq<Declaration>, d: Declaration, k: nat, name: Text)
    requires k <= |ds|
    ensures DeclaredBefore(ds + [d], k, name) <==> DeclaredBefore(ds, k, name)
  {
    var es := ds + [d];
    assert forall j :: 0 <= j < |ds| ==> es[j] == ds[j];
  }

  lemma CountsMore(ds: seq<Declaration>, d: Declaration)
    ensures forall k :: 0 <= k < |ds| ==> (Counts(ds + [d], k) <==> Counts(ds, k))
    ensures Counts(ds + [d], |ds|) <==> (d.joins ==> DeclaredBefore(ds, |ds|, d.name))
  {
    hide DeclaredBefore;
    var es := ds + [d];
    forall k | 0 <= k <= |ds| ensures DeclaredBefore(es, k, es[k].name) <==> DeclaredBefore(ds, k, es[k].name) {
      DeclaredSame(ds, d, k, es[k].name);
    }
  }

  lemma AbsorbRoute(s: Secret, d: Declaration, r: Route)
    ensures HasRoute(Absorb(s, d), r) <==> HasRoute(s, r) || d.route == r
    ensures HasRoute(NewSecret(d), r) <==> d.route == r
    ensures Absorb(s, d).name == s.name && NewSecret(d).name == d.name
    ensures Absorb(s, d).required == (s.required || d.required) && NewSecret(d).required == d.required
  {
  }

  /**
   * After the merge, a secret is listed exactly when it was declared; it has exactly the routes of
   * the declarations that apply to it, and is required exactly when one of them says so.
   */
  lemma {:induction false} MergedIs(ds: seq<Declaration>, name: Text, r: Route)
    ensures var s := Find(MergeAll([], ds), name);
            && (s.Some? <==> DeclaredBefore(ds, |ds|, name))
            && (s.Some? ==> s.value.name == name)
            && (s.Some? ==> (HasRoute(s.value, r) <==> Routes(ds, name, r)))
            && (s.Some? ==> (s.value.required <==> Requires(ds, name)))
            && (s.None? ==> !Routes(ds, name, r) && !Requires(ds, name))
    decreases |ds|
  {
    hide Merge, MergeAll, HasRoute, Routes, Requires, DeclaredBefore, Absorb, NewSecret;
    if ds == [] {
      MergeNothing(name, r);
    } else {
      var n := |ds| - 1;
      var d := ds[n];
      assert ds == ds[..n] + [d];
      MergedIs(ds[..n], name, r);
      MergeLast([], ds[..n], d);
      FindMerged(MergeAll([], ds[..n]), d, name);
      OneMore(ds[..n], d, name, r);
      var s := Find(MergeAll([], ds[..n]), name);
      AbsorbRoute(if s.Some? then s.value else NewSecret(d), d, r);
    }
  }

  lemma MergeNothing(name: Text, r: Route)
    ensures MergeAll([], []) == [] && Find([], name) == None
    ensures !DeclaredBefore([], 0, name) && !Routes([], name, r) && !Requires([], name)
  {
  }

  lemma {:induction false} MergedNamesDistinct(ss: seq<Secret>, ds: seq<Declaration>)
    requires NamesDistinct(ss)
    ensures NamesDistinct(MergeAll(ss, ds))
    decreases |ds|
  {
    hide Merge;
    if ds != [] {
      MergeKeepsDistinct(ss, ds[0]);
      MergedNamesDistinct(Merge(ss, ds[0]), ds[1..]);
    }
  }

  lemma {:induction false} MergeKeepsDistinct(ss: seq<Secret>, d: Declaration)
    requires NamesDistinct(ss)
    ensures NamesDistinct(Merge(ss, d))
    ensures forall s :: s in Merge(ss, d) ==> s.name == d.name || s in ss
  {
    if ss != [] {
      assert ss == [ss[0]] + ss[1..];
      if ss[0].name == d.name {
        AbsorbRoute(ss[0], d, d.route);
      } else {
        MergeKeepsDistinct(ss[1..], d);
        var r := Merge(ss[1..], d);
        forall k | 0 <= k < |r| ensures r[k].name != ss[0].name {
          assert r[k] in r;
          if r[k] in ss[1..] {
            var j :| 0 <= j < |ss[1..]| && ss[1..][j] == r[k];
            assert ss[j + 1] == r[k];
          }
        }
      }
    } else {
      AbsorbRoute(NewSecret(d), d, d.route);
    }
  }

  /** No service and no alias is listed twice. */
  ghost predicate RoutesOnce(s: Secret) {
    && (forall a, b :: 0 <= a < b < |s.services| ==> s.services[a] != s.services[b])
    && (forall a, b :: 0 <= a < b < |s.aliases| ==> s.aliases[a] != s.aliases[b])
  }

  lemma AbsorbOnce(s: Secret, d: Declaration)
    ensures RoutesOnce(s) ==> RoutesOnce(Absorb(s, d))
    ensures RoutesOnce(NewSecret(d))
  {
  }

  lemma {:induction false} MergeOnce(ss: seq<Secret>, d: Declaration)
    requires forall s :: s in ss ==> RoutesOnce(s)
    ensures forall s :: s in Merge(ss, d) ==> RoutesOnce(s)
  {
    hide RoutesOnce, Absorb, NewSecret;
    if ss != [] {
      AbsorbOnce(ss[0], d);
      assert ss == [ss[0]] + ss[1..];
      MergeOnce(ss[1..], d);
    } else {
      AbsorbOnce(Secret([], [], [], false, [], None, false), d);
    }
  }

  /** However often a route is declared, a secret lists it once. */
  lemma {:induction false} MergedOnce(ss: seq<Secret>, ds: seq<Declaration>)
    requires forall s :: s in ss ==> RoutesOnce(s)
    ensures forall s :: s in MergeAll(ss, ds) ==> RoutesOnce(s)
    decreases |ds|
  {
    hide RoutesOnce, Merge;
    if ds != [] {
      MergeOnce(ss, ds[0]);
      MergedOnce(Merge(ss, ds[0]), ds[1..]);
    }
  }

  // ---------------------------------------------------------------------------
  // Sorting by name
  // ---------------------------------------------------------------------------

  /** A strict total order of names, as the locale gives it. */
  ghost predicate IsOrder(before: (Text, Text) -> bool) {
    && (forall a, b {:trigger before(a, b)} :: before(a, b) ==> !before(b, a))
    && (forall a, b {:trigger before(a, b)} :: a != b ==> before(a, b) || before(b, a))
    && (forall a, b, c {:trigger before(a, b), before(b, c)} :: before(a, b) && before(b, c) ==> before(a, c))
  }

  function Insert(s: Secret, ss: seq<Secret>, before: (Text, Text) -> bool): seq<Secret> {
    if ss == [] || before(s.name, ss[0].name) then [s] + ss else [ss[0]] + Insert(s, ss[1..], before)
  }

  function SortByName(ss: seq<Secret>, before: (Text, Text) -> bool): seq<Secret> {
    if ss == [] then [] else Insert(ss[0], SortByName(ss[1..], before), before)
  }

  ghost predicate Ascends(ss: seq<Secret>, before: (Text, Text) -> bool) {
    forall a, b :: 0 <= a < b < |ss| ==> before(ss[a].name, ss[b].name)
  }

  lemma {:induction false} InsertSorts(s: Secret, ss: seq<Secret>, before: (Text, Text) -> bool)
    requires IsOrder(before) && Ascends(ss, before) && forall k :: 0 <= k < |ss| ==> ss[k].name != s.name
    ensures Ascends(Insert(s, ss, before), before)
    ensures forall x :: x in Insert(s, ss, before) <==> x == s || x in ss
  {
    if ss != [] {
      assert ss == [ss[0]] + ss[1..];
      if before(s.name, ss[0].name) {
        forall k | 0 <= k < |ss| ensures before(s.name, ss[k].name) {
          if k > 0 {
            assert before(ss[0].name, ss[k].name);
          }
        }
      } else {
        InsertSorts(s, ss[1..], before);
        var r := Insert(s, ss[1..], before);
        forall k | 0 <= k < |r| ensures before(ss[0].name, r[k].name) {
          assert r[k] in r;
          if r[k] != s {
            var j :| 0 <= j < |ss[1..]| && ss[1..][j] == r[k];
            assert ss[j + 1] == r[k];
          }
        }
      }
    }
  }

  lemma {:induction false} Sorts(ss: seq<Secret>, before: (Text, Text) -> bool)
    requires IsOrder(before) && NamesDistinct(ss)
    ensures Ascends(SortByName(ss, before), before)
    ensures forall x :: x in SortByName(ss, before) <==> x in ss
  {
    if ss != [] {
      var r := SortByName(ss[1..], before);
      Sorts(ss[1..], before);
      assert ss == [ss[0]] + ss[1..];
      forall k | 0 <= k < |r| ensures r[k].name != ss[0].name {
        assert r[k] in r;
        var j :| 0 <= j < |ss[1..]| && ss[1..][j] == r[k];
        assert ss[j + 1] == r[k];
      }
      InsertSorts(ss[0], r, before);
    }
  }

  lemma {:induction false} FindIn(ss: seq<Secret>, name: Text)
    ensures Find(ss, name).Some? ==> Find(ss, name).value in ss && Find(ss, name).value.name == name
    ensures Find(ss, name).None? ==> forall k :: 0 <= k < |ss| ==> ss[k].name != name
    ensures NamesDistinct(ss) ==> forall s :: s in ss && s.name == name ==> Find(ss, name) == Some(s)
  {
    if ss != [] {
      assert ss == [ss[0]] + ss[1..];
      FindIn(ss[1..], name);
      if NamesDistinct(ss) && ss[0].name == name {
        forall s | s in ss && s.name == name ensures s == ss[0] {
          var k :| 0 <= k < |ss| && ss[k] == s;
        }
      }
    }
  }

  // ---------------------------------------------------------------------------
  // The loops
  // ---------------------------------------------------------------------------

  function Computed(c: Config, specs: seq<Spec>, before: (Text, Text) -> bool): seq<Secret> {
    SortByName(MergeAll([], Declarations(c, specs)), before)
  }

  lemma {:induction false} MergeConcat(ss: seq<Secret>, a: seq<Declaration>, b: seq<Declaration>)
    ensures MergeAll(ss, a + b) == MergeAll(MergeAll(ss, a), b)
    decreases |a|
  {
    hide Merge;
    if a == [] {
      assert a + b == b;
    } else {
      assert (a + b)[1..] == a[1..] + b;
      MergeConcat(Merge(ss, a[0]), a[1..], b);
    }
  }

  lemma MergeOne(ss: seq<Secret>, d: Declaration, rest: seq<Declaration>)
    ensures MergeAll(ss, [d] + rest) == MergeAll(Merge(ss, d), rest)
  {
    hide Merge;
    assert ([d] + rest)[1..] == rest;
  }

  lemma MergeStep(ss: seq<Secret>, i: nat, d: Declaration)
    requires i <= |ss|
    ensures i < |ss| && ss[i].name == d.name ==> ss[..i] + Merge(ss[i..], d) == ss[i := Absorb(ss[i], d)]
    ensures i < |ss| && ss[i].name != d.name ==> ss[..i] + Merge(ss[i..], d) == ss[..i + 1] + Merge(ss[i + 1..], d)
    ensures i == |ss| ==> ss[..i] + Merge(ss[i..], d) == if d.joins then ss else ss + [NewSecret(d)]
  {
    hide Absorb, NewSecret;
    if i < |ss| {
      assert ss[i..][0] == ss[i] && ss[i..][1..] == ss[i + 1..] && ss[..i + 1] == ss[..i] + [ss[i]];
    }
  }

  /** Looks the secret up, extends it in place or adds it at the end. */
  method Declare(byName: seq<Secret>, d: Declaration) returns (r: seq<Secret>)
    ensures r == Merge(byName, d)
  {
    hide Absorb, NewSecret, Merge;
    assert byName[0..] == byName && byName[..0] + Merge(byName, d) == Merge(byName, d);
    for i := 0 to |byName|
      invariant Merge(byName, d) == byName[..i] + Merge(byName[i..], d)
    {
      MergeStep(byName, i, d);
      if byName[i].name == d.name {
        return byName[i := Absorb(byName[i], d)];
      }
    }
    MergeStep(byName, |byName|, d);
    return if d.joins then byName else byName + [NewSecret(d)];
  }

  method MergeSpecs(c: Config, specs: seq<Spec>) returns (byName: seq<Secret>)
    ensures byName == MergeAll([], FromSpecs(c, specs))
  {
    hide Merge, MergeAll, RequirementFor, FromSpecs;
    byName := [];
    MergeNone([]);
    SpecsLeft(c, specs, 0);
    assert specs[0..] == specs;
    for i := 0 to |specs|
      invariant MergeAll(byName, FromSpecs(c, specs[i..])) == MergeAll([], FromSpecs(c, specs))
    {
      SpecsLeft(c, specs, i);
      MergeNone(byName);
      if specs[i].service !in c.services {
        assert [] + FromSpecs(c, specs[i + 1..]) == FromSpecs(c, specs[i + 1..]);
        continue;
      }
      var required := RequirementFor(c, specs[i].required);
      if required.None? {
        assert [] + FromSpecs(c, specs[i + 1..]) == FromSpecs(c, specs[i + 1..]);
        continue;
      }
      var route := match specs[i].envName case Some(env) => As(specs[i].service, env) case None => Own(specs[i].service);
      var d := Declaration(specs[i].name, route, required.value, false, specs[i].description, specs[i].generate,
                           specs[i].terraform);
      MergeOne(byName, d, FromSpecs(c, specs[i + 1..]));
      byName := Declare(byName, d);
    }
    SpecsLeft(c, specs, |specs|);
    MergeNone(byName);
  }

  lemma MergeNone(ss: seq<Secret>)
    ensures MergeAll(ss, []) == ss
  {
  }

  lemma SpecsLeft(c: Config, specs: seq<Spec>, i: nat)
    requires i <= |specs|
    ensures i < |specs| ==> FromSpecs(c, specs[i..]) == FromSpec(c, specs[i]) + FromSpecs(c, specs[i + 1..])
    ensures i == |specs| ==> FromSpecs(c, specs[i..]) == []
  {
    hide FromSpec;
    if i < |specs| {
      assert specs[i..][0] == specs[i] && specs[i..][1..] == specs[i + 1..];
    }
  }

  method MergePlugin(before: seq<Secret>, p: Plugin) returns (byName: seq<Secret>)
    ensures byName == MergeAll(before, FromPlugin(p))
  {
    hide Merge, MergeAll;
    var join := Declaration(SIGNING, Own(p.name), false, true, [], None, false);
    MergeOne(before, join, FromPluginSecrets(p, p.secrets));
    byName := Declare(before, join);
    ghost var start := byName;
    for i := 0 to |p.secrets|
      invariant MergeAll(byName, FromPluginSecrets(p, p.secrets[i..])) == MergeAll(start, FromPluginSecrets(p, p.secrets))
    {
      assert p.secrets[i..][0] == p.secrets[i] && p.secrets[i..][1..] == p.secrets[i + 1..];
      var d := Declaration(p.secrets[i].name, Own(p.name), p.secrets[i].required, false, p.secrets[i].description, None,
                           false);
      MergeOne(byName, d, FromPluginSecrets(p, p.secrets[i + 1..]));
      byName := Declare(byName, d);
    }
    MergeNone(byName);
  }

  method MergePlugins(before: seq<Secret>, ps: seq<Plugin>) returns (byName: seq<Secret>)
    ensures byName == MergeAll(before, FromPlugins(ps))
  {
    hide Merge, MergeAll, FromPlugin;
    byName := before;
    for i := 0 to |ps|
      invariant MergeAll(byName, FromPlugins(ps[i..])) == MergeAll(before, FromPlugins(ps))
    {
      assert ps[i..][0] == ps[i] && ps[i..][1..] == ps[i + 1..];
      MergeConcat(byName, FromPlugin(ps[i]), FromPlugins(ps[i + 1..]));
      byName := MergePlugin(byName, ps[i]);
    }
    MergeNone(byName);
  }

  method MergeSecretEnv(before: seq<Secret>, c: Config) returns (byName: seq<Secret>)
    ensures byName == MergeAll(before, FromSecretEnv(c, c.secretEnv))
  {
    hide Merge, MergeAll, Units;
    var es := c.secretEnv;
    byName := before;
    for i := 0 to |es|
      invariant MergeAll(byName, FromSecretEnv(c, es[i..])) == MergeAll(before, FromSecretEnv(c, es))
    {
      assert es[i..][0] == es[i] && es[i..][1..] == es[i + 1..];
      var (service, variable, name) := es[i];
      if service !in c.services {
        assert [] + FromSecretEnv(c, es[i + 1..]) == FromSecretEnv(c, es[i + 1..]);
        continue;
      }
      var d := Declaration(name, if variable == name then Own(service) else As(service, variable), true, false,
                           Units("Operator secret declared by config secretEnv.") + service + Units("."), None, false);
      MergeOne(byName, d, FromSecretEnv(c, es[i + 1..]));
      byName := Declare(byName, d);
    }
    MergeNone(byName);
  }

  method MergeSandbox(before: seq<Secret>, names: seq<Text>) returns (byName: seq<Secret>)
    ensures byName == MergeAll(before, FromSandbox(names))
  {
    hide Merge, MergeAll, Units;
    byName := before;
    for i := 0 to |names|
      invariant MergeAll(byName, FromSandbox(names[i..])) == MergeAll(before, FromSandbox(names))
    {
      assert names[i..][0] == names[i] && names[i..][1..] == names[i + 1..];
      var d := Declaration(names[i], Own(SANDBOX), true, false,
                           Units("Organization-wide secret injected into every sandbox as ") + names[i] + Units("."),
                           None, false);
      MergeOne(byName, d, FromSandbox(names[i + 1..]));
      byName := Declare(byName, d);
    }
    MergeNone(byName);
  }

  method ComputedSecrets(c: Config, specs: seq<Spec>, before: (Text, Text) -> bool) returns (r: seq<Secret>)
    ensures r == Computed(c, specs, before)
  {
    hide MergeAll, FromSpecs, FromPlugins, FromSecretEnv, FromSandbox;
    var byName := MergeSpecs(c, specs);
    byName := MergePlugins(byName, c.plugins);
    byName := MergeSecretEnv(byName, c);
    byName := MergeSandbox(byName, c.sandboxSecrets);
    var a, b := FromSpecs(c, specs), FromPlugins(c.plugins);
    MergeConcat([], a + b + FromSecretEnv(c, c.secretEnv), FromSandbox(c.sandboxSecrets));
    MergeConcat([], a + b, FromSecretEnv(c, c.secretEnv));
    MergeConcat([], a, b);
    return SortByName(byName, before);
  }

  /** The workloads and variables of a secret; plugins get the signing secret. */
  ghost predicate Reaches(s: Secret, virtual: set<Text>, plugins: seq<Text>, to: Destination) {
    || (exists k :: 0 <= k < |s.services| && ServiceDestination(s.name, s.services[k], virtual) == to)
    || (exists k :: 0 <= k < |s.aliases| && RouteDestination(s.name, AliasRoute(s.aliases[k]), virtual) == to)
    || (s.name == SIGNING && to.0 in plugins && to.1 == s.name)
  }

  function AliasRoute(a: Alias): Route {
    As(a.service, a.env)
  }

  function Add(out: map<Text, set<Text>>, to: Destination): map<Text, set<Text>> {
    out[to.0 := (if to.0 in out then out[to.0] else {}) + {to.1}]
  }

  predicate In(out: map<Text, set<Text>>, to: Destination) {
    to.0 in out && to.1 in out[to.0]
  }

  /** Adding a destination adds it and nothing else. */
  lemma AddsOne(out: map<Text, set<Text>>, to: Destination, added: seq<Destination>)
    requires (forall x: Destination :: In(out, x) <==> x in added) && forall w :: w in out ==> out[w] != {}
    ensures forall x: Destination :: In(Add(out, to), x) <==> x in added + [to]
    ensures forall w :: w in Add(out, to) ==> Add(out, to)[w] != {}
  {
    forall x: Destination ensures In(Add(out, to), x) <==> In(out, x) || x == to {
    }
    forall w | w in Add(out, to) ensures Add(out, to)[w] != {} {
      assert w == to.0 ==> to.1 in Add(out, to)[w];
    }
  }

  method SecretDestinations(s: Secret, virtual: set<Text>, plugins: seq<Text>) returns (out: map<Text, set<Text>>)
    ensures forall to: Destination :: In(out, to) <==> Reaches(s, virtual, plugins, to)
    ensures forall w :: w in out ==> out[w] != {}
  {
    hide Units, In, Add, ServiceDestination, RouteDestination;
    out := map[];
    ghost var added: seq<Destination> := [];
    assert forall x: Destination :: In(out, x) <==> x in added by { NoneIn(); }
    for i := 0 to |s.services|
      invariant (forall x: Destination :: In(out, x) <==> x in added) && forall w :: w in out ==> out[w] != {}
      invariant |added| == i
      invariant forall k :: 0 <= k < i ==> added[k] == ServiceDestination(s.name, s.services[k], virtual)
    {
      AddsOne(out, ServiceDestination(s.name, s.services[i], virtual), added);
      out := Add(out, ServiceDestination(s.name, s.services[i], virtual));
      added := added + [ServiceDestination(s.name, s.services[i], virtual)];
    }
    ghost var n := |s.services|;
    for i := 0 to |s.aliases|
      invariant (forall x: Destination :: In(out, x) <==> x in added) && forall w :: w in out ==> out[w] != {}
      invariant |added| == n + i
      invariant forall k :: 0 <= k < n ==> added[k] == ServiceDestination(s.name, s.services[k], virtual)
      invariant forall k :: 0 <= k < i ==> added[n + k] == RouteDestination(s.name, AliasRoute(s.aliases[k]), virtual)
    {
      AddsOne(out, RouteDestination(s.name, AliasRoute(s.aliases[i]), virtual), added);
      out := Add(out, RouteDestination(s.name, AliasRoute(s.aliases[i]), virtual));
      added := added + [RouteDestination(s.name, AliasRoute(s.aliases[i]), virtual)];
    }
    ghost var m := n + |s.aliases|;
    ghost var base := added;
    if s.name == SIGNING {
      for i := 0 to |plugins|
        invariant (forall x: Destination :: In(out, x) <==> x in added) && forall w :: w in out ==> out[w] != {}
        invariant |added| == m + i && added[..m] == base
        invariant forall k :: 0 <= k < i ==> added[m + k] == (plugins[k], s.name)
      {
        AddsOne(out, (plugins[i], s.name), added);
        out := Add(out, (plugins[i], s.name));
        added := added + [(plugins[i], s.name)];
      }
    } else {
      assert added[..m] == base;
    }
    AddedAreReached(s, virtual, plugins, added);
  }

  lemma NoneIn()
    ensures forall x: Destination :: !In(map[], x)
  {
  }

  /** The destinations that the loops have added are the reached ones. */
  lemma AddedAreReached(s: Secret, virtual: set<Text>, plugins: seq<Text>, added: seq<Destination>)
    requires var n := |s.services|;
             var m := n + |s.aliases|;
             && |added| == m + (if s.name == SIGNING then |plugins| else 0)
             && (forall k :: 0 <= k < n ==> added[k] == ServiceDestination(s.name, s.services[k], virtual))
             && (forall k :: 0 <= k < |s.aliases| ==>
                   added[n + k] == RouteDestination(s.name, AliasRoute(s.aliases[k]), virtual))
             && (forall k :: 0 <= k < |added| - m ==> added[m + k] == (plugins[k], s.name))
    ensures forall to: Destination :: to in added <==> Reaches(s, virtual, plugins, to)
  {
    hide Units, ServiceDestination, RouteDestination;
    var n := |s.services|;
    var m := n + |s.aliases|;
    forall to: Destination ensures to in added <==> Reaches(s, virtual, plugins, to) {
      if to in added {
        var j :| 0 <= j < |added| && added[j] == to;
        if j < n {
          assert ServiceDestination(s.name, s.services[j], virtual) == to;
        } else if j < m {
          assert added[n + (j - n)] == to;
          assert RouteDestination(s.name, AliasRoute(s.aliases[j - n]), virtual) == to;
        } else {
          assert added[m + (j - m)] == to;
          assert plugins[j - m] == to.0;
        }
      }
      if k :| 0 <= k < |s.services| && ServiceDestination(s.name, s.services[k], virtual) == to {
        assert added[k] == to;
      }
      if k :| 0 <= k < |s.aliases| && RouteDestination(s.name, AliasRoute(s.aliases[k]), virtual) == to {
        assert added[n + k] == to;
      }
      if s.name == SIGNING && to.0 in plugins && to.1 == s.name {
        var k :| 0 <= k < |plugins| && plugins[k] == to.0;
        assert added[m + k] == to;
      }
    }
  }

  // ---------------------------------------------------------------------------
  // Main results
  // ---------------------------------------------------------------------------

  lemma ReachesByRoute(s: Secret, virtual: set<Text>, to: Destination)
    ensures Reaches(s, virtual, [], to) <==> exists r :: HasRoute(s, r) && RouteDestination(s.name, r, virtual) == to
  {
    hide Units;
    if k :| 0 <= k < |s.services| && ServiceDestination(s.name, s.services[k], virtual) == to {
      assert HasRoute(s, Own(s.services[k])) && RouteDestination(s.name, Own(s.services[k]), virtual) == to;
    }
    if k :| 0 <= k < |s.aliases| && RouteDestination(s.name, AliasRoute(s.aliases[k]), virtual) == to {
      assert HasRoute(s, AliasRoute(s.aliases[k]));
    }
    if r :| HasRoute(s, r) && RouteDestination(s.name, r, virtual) == to {
      match r {
        case Own(service) =>
          var k :| 0 <= k < |s.services| && s.services[k] == service;
        case As(service, env) =>
          var k :| 0 <= k < |s.aliases| && s.aliases[k] == Alias(service, env);
          assert AliasRoute(s.aliases[k]) == r;
      }
    }
  }

  /** An applying declaration of the secret sends it to the destination. */
  ghost predicate SentTo(ds: seq<Declaration>, name: Text, virtual: set<Text>, to: Destination) {
    exists k :: 0 <= k < |ds| && ds[k].name == name && Counts(ds, k)
                && RouteDestination(name, ds[k].route, virtual) == to
  }

  /**
   * The computed secrets are sorted by name, each name once; a name is listed exactly when it is
   * declared. Each secret reaches exactly the union of its applying declarations' workloads and
   * variables (plugins aside), and is required exactly when one of these declarations says so.
   */
  lemma SecretsAreRouted(c: Config, specs: seq<Spec>, before: (Text, Text) -> bool, virtual: set<Text>, name: Text,
                         to: Destination)
    requires IsOrder(before)
    ensures var ss, ds := Computed(c, specs, before), Declarations(c, specs);
            && Ascends(ss, before) && NamesDistinct(ss)
            && (Find(ss, name).Some? <==> DeclaredBefore(ds, |ds|, name))
            && (Find(ss, name).Some? ==>
                  var s := Find(ss, name).value;
                  && s.name == name
                  && (Reaches(s, virtual, [], to) <==> SentTo(ds, name, virtual, to))
                  && (s.required <==> Requires(ds, name)))
  {
    hide Units, Declarations, MergeAll, SortByName, HasRoute, Requires, Reaches, Counts, DeclaredBefore, Find, Routes,
         SentTo;
    var ds := Declarations(c, specs);
    var merged := MergeAll([], ds);
    var ss := SortByName(merged, before);
    MergedNamesDistinct([], ds);
    Sorts(merged, before);
    AscendingDistinct(ss, before);
    FindIn(merged, name);
    FindIn(ss, name);
    forall r ensures Find(merged, name).Some? ==> (HasRoute(Find(merged, name).value, r) <==> Routes(ds, name, r)) {
      MergedIs(ds, name, r);
    }
    MergedIs(ds, name, Own([]));
    if Find(ss, name).Some? {
      ReachesByRoute(Find(ss, name).value, virtual, to);
      SentByRoute(ds, name, virtual, to);
    }
  }

  lemma SentByRoute(ds: seq<Declaration>, name: Text, virtual: set<Text>, to: Destination)
    ensures SentTo(ds, name, virtual, to) <==> exists r :: Routes(ds, name, r) && RouteDestination(name, r, virtual) == to
  {
    hide Units, Counts, RouteDestination;
    if k :| 0 <= k < |ds| && ds[k].name == name && Counts(ds, k) && RouteDestination(name, ds[k].route, virtual) == to {
      assert Routes(ds, name, ds[k].route);
    }
    if r :| Routes(ds, name, r) && RouteDestination(name, r, virtual) == to {
      var k :| 0 <= k < |ds| && ds[k].name == name && ds[k].route == r && Counts(ds, k);
    }
  }

  lemma AscendingDistinct(ss: seq<Secret>, before: (Text, Text) -> bool)
    requires IsOrder(before) && Ascends(ss, before)
    ensures NamesDistinct(ss)
  {
    forall a, b | 0 <= a < b < |ss| ensures ss[a].name != ss[b].name {
      assert before(ss[a].name, ss[b].name);
    }
  }

  /** Every declaration that only joins a secret finds it declared. */
  ghost predicate AllCount(ds: seq<Declaration>) {
    forall k :: 0 <= k < |ds| ==> Counts(ds, k)
  }

  lemma SameDeclarations(ds: seq<Declaration>, es: seq<Declaration>, name: Text, r: Route)
    requires AllCount(es) && forall d :: d in ds ==> d in es
    ensures DeclaredBefore(ds, |ds|, name) ==> DeclaredBefore(es, |es|, name)
    ensures Routes(ds, name, r) ==> Routes(es, name, r)
    ensures Requires(ds, name) ==> Requires(es, name)
  {
    hide Counts;
    forall k | 0 <= k < |ds| ensures exists j :: 0 <= j < |es| && es[j] == ds[k] {
      assert ds[k] in es;
    }
  }

  /** If an enabled service's declarations need the signing secret, every plugin's join applies. */
  lemma SigningDeclaredFirst(c: Config, specs: seq<Spec>)
    requires DeclaredBefore(FromSpecs(c, specs), |FromSpecs(c, specs)|, SIGNING)
    ensures AllCount(Declarations(c, specs))
  {
    hide Units;
    var ds, first := Declarations(c, specs), FromSpecs(c, specs);
    var j :| 0 <= j < |first| && first[j].name == SIGNING && !first[j].joins;
    assert ds[j] == first[j];
    SpecsDoNotJoin(c, specs);
    OnlySigningJoins(c.plugins);
    EnvDoesNotJoin(c, c.secretEnv);
    SandboxDoesNotJoin(c.sandboxSecrets);
    forall k | 0 <= k < |ds| ensures Counts(ds, k) {
      if k >= |first| {
        if ds[k].joins {
          JoinsSigning(c, specs, k);
        }
      } else {
        assert ds[k] == first[k];
      }
    }
  }

  lemma {:induction false} SpecsDoNotJoin(c: Config, specs: seq<Spec>)
    ensures forall k :: 0 <= k < |FromSpecs(c, specs)| ==> !FromSpecs(c, specs)[k].joins
  {
    if specs != [] {
      SpecsDoNotJoin(c, specs[1..]);
    }
  }

  lemma {:induction false} PluginSecretsDoNotJoin(p: Plugin, ss: seq<PluginSecret>)
    ensures forall k :: 0 <= k < |FromPluginSecrets(p, ss)| ==> !FromPluginSecrets(p, ss)[k].joins
  {
    if ss != [] {
      PluginSecretsDoNotJoin(p, ss[1..]);
    }
  }

  lemma {:induction false} OnlySigningJoins(ps: seq<Plugin>)
    ensures forall k :: 0 <= k < |FromPlugins(ps)| && FromPlugins(ps)[k].joins ==> FromPlugins(ps)[k].name == SIGNING
  {
    hide Units;
    if ps != [] {
      PluginSecretsDoNotJoin(ps[0], ps[0].secrets);
      OnlySigningJoins(ps[1..]);
    }
  }

  lemma {:induction false} EnvDoesNotJoin(c: Config, es: seq<(Text, Text, Text)>)
    ensures forall k :: 0 <= k < |FromSecretEnv(c, es)| ==> !FromSecretEnv(c, es)[k].joins
  {
    hide Units;
    if es != [] {
      EnvDoesNotJoin(c, es[1..]);
    }
  }

  lemma {:induction false} SandboxDoesNotJoin(names: seq<Text>)
    ensures forall k :: 0 <= k < |FromSandbox(names)| ==> !FromSandbox(names)[k].joins
  {
    hide Units;
    if names != [] {
      SandboxDoesNotJoin(names[1..]);
    }
  }

  lemma JoinsSigning(c: Config, specs: seq<Spec>, k: nat)
    requires k < |Declarations(c, specs)| && Declarations(c, specs)[k].joins
    ensures Declarations(c, specs)[k].name == SIGNING
  {
    hide FromSpecs, FromPlugins, FromSecretEnv, FromSandbox, Units;
    SpecsDoNotJoin(c, specs);
    OnlySigningJoins(c.plugins);
    EnvDoesNotJoin(c, c.secretEnv);
    SandboxDoesNotJoin(c.sandboxSecrets);
    InOneOf(FromSpecs(c, specs), FromPlugins(c.plugins), FromSecretEnv(c, c.secretEnv), FromSandbox(c.sandboxSecrets), k);
  }

  lemma InOneOf(a: seq<Declaration>, b: seq<Declaration>, e: seq<Declaration>, f: seq<Declaration>, k: nat)
    requires k < |a + b + e + f|
    ensures var d := (a + b + e + f)[k]; d in a || d in b || d in e || d in f
  {
  }
}
