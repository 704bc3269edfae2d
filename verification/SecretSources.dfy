// What a configuration's entries, one by one, mean for the secrets: which are needed, where they go,
// and which of them are required.

module SecretSources {
  import opened Results
  import opened Texts
  import opened TextLines
  import opened SecretRouting

  // ---------------------------------------------------------------------------
  // Conditions
  // ---------------------------------------------------------------------------

  predicate IsBlankText(t: Text) {
    forall k :: 0 <= k < |t| ==> IsSpace(t[k])
  }

  /** `v` is what is left of `raw` without the white space at its ends. */
  ghost predicate IsCore(raw: Text, v: Text) {
    (v != [] ==> !IsSpace(v[0]) && !IsSpace(v[|v| - 1])) && exists a: nat :: IsCoreAt(raw, v, a)
  }

  ghost predicate IsCoreAt(raw: Text, v: Text, a: nat) {
    && a + |v| <= |raw| && raw[a..a + |v|] == v
    && forall k :: 0 <= k < a || a + |v| <= k < |raw| ==> IsSpace(raw[k])
  }

  /** The variable's text in the configuration, or else its default for the target. */
  function RawValue(c: Config, service: Text, name: Text): Option<Text> {
    if (service, name) in c.env then Some(c.env[(service, name)])
    else if (service, name) in c.defaults then Some(c.defaults[(service, name)])
    else None
  }

  ghost predicate HasValue(c: Config, service: Text, name: Text, v: Text) {
    RawValue(c, service, name).Some? && IsCore(RawValue(c, service, name).value, v)
  }

  predicate IsSet(c: Config, service: Text, name: Text) {
    RawValue(c, service, name).Some? && !IsBlankText(RawValue(c, service, name).value)
  }

  lemma {:induction false} TrimStartIs(t: Text) returns (a: nat)
    ensures a <= |t| && TrimStart(t) == t[a..] && (forall k :: 0 <= k < a ==> IsSpace(t[k]))
    ensures a < |t| ==> !IsSpace(t[a])
  {
    hide IsSpace;
    a := 0;
    if t != [] && IsSpace(t[0]) {
      a := TrimStartIs(t[1..]);
      assert forall k :: 1 <= k < |t| ==> t[k] == t[1..][k - 1];
      a := a + 1;
    }
  }

  lemma TrimIsCore(t: Text)
    ensures IsCore(t, Trim(t))
  {
    hide IsSpace;
    var a := TrimStartIs(t);
    var m, v := t[a..], Trim(t);
    assert v == m[..|v|];
    forall k | a + |v| <= k < |t| ensures IsSpace(t[k]) {
      assert t[k] == m[k - a];
    }
    assert IsCoreAt(t, v, a);
  }

  lemma CoreBorders(t: Text, v: Text, a: nat)
    requires IsCoreAt(t, v, a) && v != [] && !IsSpace(v[0]) && !IsSpace(v[|v| - 1])
    ensures a + |v| <= |t| && !IsSpace(t[a]) && !IsSpace(t[a + |v| - 1])
  {
    hide IsSpace;
    assert t[a..a + |v|][0] == t[a] && t[a..a + |v|][|v| - 1] == t[a + |v| - 1];
  }

  lemma InsideCore(t: Text, k: nat, v: Text, a: nat)
    requires IsCoreAt(t, v, a) && k < |t| && !IsSpace(t[k])
    ensures a <= k < a + |v|
  {
    hide IsSpace;
  }

  /** There is only one such text. */
  lemma CoreUnique(t: Text, v: Text, w: Text)
    requires IsCore(t, v) && IsCore(t, w)
    ensures v == w
  {
    hide IsSpace, IsCoreAt;
    var a: nat :| IsCoreAt(t, v, a);
    var i: nat :| IsCoreAt(t, w, i);
    if v != [] {
      CoreBorders(t, v, a);
      InsideCore(t, a, w, i);
      InsideCore(t, a + |v| - 1, w, i);
    }
    if w != [] {
      CoreBorders(t, w, i);
      InsideCore(t, i, v, a);
      InsideCore(t, i + |w| - 1, v, a);
    }
    if v != [] && w != [] {
      CoreText(t, v, a);
      CoreText(t, w, i);
    }
  }

  lemma CoreText(t: Text, v: Text, a: nat)
    requires IsCoreAt(t, v, a)
    ensures a + |v| <= |t| && v == t[a..a + |v|]
  {
  }

  lemma BlankTrims(t: Text)
    ensures Trim(t) == [] <==> IsBlankText(t)
  {
    hide IsSpace, Trim, IsBlankText;
    TrimIsCore(t);
    if IsBlankText(t) {
      BlankHasEmptyCore(t);
      CoreUnique(t, Trim(t), []);
    }
    if Trim(t) == [] {
      EmptyCoreIsBlank(t);
    }
  }

  lemma BlankHasEmptyCore(t: Text)
    requires IsBlankText(t)
    ensures IsCore(t, [])
  {
    hide IsSpace;
    assert IsCoreAt(t, [], 0);
  }

  lemma EmptyCoreIsBlank(t: Text)
    requires IsCore(t, [])
    ensures IsBlankText(t)
  {
    hide IsSpace;
  }

  lemma ValueIs(c: Config, service: Text, name: Text, v: Text)
    ensures EnvValue(c, service, name) == Some(v) <==> HasValue(c, service, name, v)
    ensures IsBlank(EnvValue(c, service, name)) <==> !IsSet(c, service, name)
  {
    hide Trim, IsCore, IsBlankText;
    var raw := RawValue(c, service, name);
    if raw.Some? {
      TrimIsCore(raw.value);
      BlankTrims(raw.value);
      if HasValue(c, service, name, v) {
        CoreUnique(raw.value, v, Trim(raw.value));
      }
    }
  }

  /** The meaning of every kind of condition. */
  lemma ConditionsMean(c: Config, x: Condition)
    ensures match x
            case EnvEquals(s, n, v) => Matches(c, x) <==> HasValue(c, s, n, v)
            case EnvIn(s, n, vs) => Matches(c, x) <==> exists v :: v in vs && HasValue(c, s, n, v)
            case EnvAbsent(s, n) => Matches(c, x) <==> !IsSet(c, s, n)
            case EnvPresent(s, n) => Matches(c, x) <==> IsSet(c, s, n)
            case EnvAllAbsent(s, ns) => Matches(c, x) <==> forall n :: n in ns && (s, n) in c.env ==> IsBlankText(c.env[(s, n)])
            case ServiceEnabled(s) => Matches(c, x) <==> s in c.services
            case ServiceAbsent(s) => Matches(c, x) <==> s !in c.services
            case Target(t) => Matches(c, x) <==> c.target == t
            case ModelProvider(p) => Matches(c, x) <==> c.provider == p
            case All(xs) => Matches(c, x) <==> forall y :: y in xs ==> Matches(c, y)
            case Any(xs) => Matches(c, x) <==> exists y :: y in xs && Matches(c, y)
  {
    hide HasValue, IsSet, EnvValue, Trim, IsBlankText, IsBlank;
    match x {
      case EnvEquals(s, n, v) => ValueIs(c, s, n, v);
      case EnvAbsent(s, n) => ValueIs(c, s, n, []);
      case EnvPresent(s, n) => ValueIs(c, s, n, []);
      case EnvIn(s, n, vs) =>
        forall v ensures EnvValue(c, s, n) == Some(v) <==> HasValue(c, s, n, v) {
          ValueIs(c, s, n, v);
        }
      case EnvAllAbsent(s, ns) =>
        forall k | 0 <= k < |ns| && (s, ns[k]) in c.env
          ensures Trim(c.env[(s, ns[k])]) == [] <==> IsBlankText(c.env[(s, ns[k])])
        {
          BlankTrims(c.env[(s, ns[k])]);
        }
        AllAbsentMeans(c, s, ns);
      case All(xs) => AllMeans(c, xs);
      case Any(xs) => AnyMeans(c, xs);
      case _ =>
    }
  }

  lemma AllAbsentMeans(c: Config, s: Text, ns: seq<Text>)
    ensures (forall k :: 0 <= k < |ns| ==> (s, ns[k]) !in c.env || IsBlankText(c.env[(s, ns[k])])) <==>
            (forall n :: n in ns && (s, n) in c.env ==> IsBlankText(c.env[(s, n)]))
  {
    hide IsBlankText;
    forall k | 0 <= k < |ns| ensures ns[k] in ns {
    }
  }

  lemma AllMeans(c: Config, xs: seq<Condition>)
    ensures Matches(c, All(xs)) <==> forall y :: y in xs ==> Matches(c, y)
  {
    forall k | 0 <= k < |xs| ensures xs[k] in xs {
    }
  }

  lemma AnyMeans(c: Config, xs: seq<Condition>)
    ensures Matches(c, Any(xs)) <==> exists y :: y in xs && Matches(c, y)
  {
    forall k | 0 <= k < |xs| ensures xs[k] in xs {
    }
  }

  /** When a condition asks for another mail transport: through conjunctions, and through all branches of a disjunction. */
  lemma OtherTransportMeans(c: Config, x: Condition)
    ensures match x
            case All(xs) => RequiresOtherEmailTransport(c, x) <==> exists y :: y in xs && RequiresOtherEmailTransport(c, y)
            case Any(xs) => RequiresOtherEmailTransport(c, x) <==> forall y :: y in xs ==> RequiresOtherEmailTransport(c, y)
            case EnvEquals(s, n, v) =>
              RequiresOtherEmailTransport(c, x) <==>
              && s == Units("auth") && n == Units("AUTH_EMAIL_TRANSPORT") && (s, n) in c.env
              && exists u :: IsCore(c.env[(s, n)], u) && u != [] && u != v
            case _ => !RequiresOtherEmailTransport(c, x)
  {
    hide Units, Trim, IsCore;
    match x {
      case EnvEquals(s, n, v) =>
        if (s, n) in c.env {
          var raw := c.env[(s, n)];
          TrimIsCore(raw);
          forall u | IsCore(raw, u) ensures u == Trim(raw) {
            CoreUnique(raw, u, Trim(raw));
          }
        }
      case All(xs) => AllOther(c, xs);
      case Any(xs) => AnyOther(c, xs);
      case _ =>
    }
  }

  lemma AllOther(c: Config, xs: seq<Condition>)
    ensures RequiresOtherEmailTransport(c, All(xs)) <==> exists y :: y in xs && RequiresOtherEmailTransport(c, y)
  {
    hide Units, Trim;
    forall k | 0 <= k < |xs| ensures xs[k] in xs {
    }
  }

  lemma AnyOther(c: Config, xs: seq<Condition>)
    ensures RequiresOtherEmailTransport(c, Any(xs)) <==> forall y :: y in xs ==> RequiresOtherEmailTransport(c, y)
  {
    hide Units, Trim;
    forall k | 0 <= k < |xs| ensures xs[k] in xs {
    }
  }

  // ---------------------------------------------------------------------------
  // What the entries of a configuration ask for
  // ---------------------------------------------------------------------------

  /** A first-party entry counts: its service is enabled, and it is needed or at least optional. */
  predicate SpecCounts(c: Config, s: Spec) {
    && s.service in c.services
    && match s.required case Always(_) => true case When(x, optional) => optional || Matches(c, x)
  }

  predicate SpecRequires(c: Config, s: Spec) {
    && s.service in c.services
    && match s.required case Always(b) => b case When(x, _) => Matches(c, x)
  }

  function SpecRoute(s: Spec): Route {
    if s.envName.None? then Own(s.service) else As(s.service, s.envName.value)
  }

  function EntryRoute(e: (Text, Text, Text)): Route {
    if e.1 == e.2 then Own(e.0) else As(e.0, e.1)
  }

  ghost predicate SpecSends(c: Config, specs: seq<Spec>, name: Text, r: Route) {
    exists i :: 0 <= i < |specs| && specs[i].name == name && SpecCounts(c, specs[i]) && SpecRoute(specs[i]) == r
  }

  predicate Declares(p: Plugin, name: Text) {
    SecretNames(p.secrets, name)
  }

  predicate DeclaresRequired(p: Plugin, name: Text) {
    SecretDemands(p.secrets, name)
  }

  predicate PluginSends(ps: seq<Plugin>, name: Text, r: Route) {
    exists i :: 0 <= i < |ps| && Declares(ps[i], name) && r == Own(ps[i].name)
  }

  predicate DeclaredAmong(ps: seq<Plugin>, name: Text) {
    exists i :: 0 <= i < |ps| && Declares(ps[i], name)
  }

  /** A plugin gets the signing secret that is known in front of the plugins or declared by one in front of it. */
  predicate JoinsAmong(known: bool, ps: seq<Plugin>, name: Text, r: Route) {
    name == SIGNING && exists i :: 0 <= i < |ps| && r == Own(ps[i].name) && (known || DeclaredAmong(ps[..i], name))
  }

  ghost predicate EntrySends(c: Config, es: seq<(Text, Text, Text)>, name: Text, r: Route) {
    exists i :: 0 <= i < |es| && es[i].2 == name && es[i].0 in c.services && EntryRoute(es[i]) == r
  }

  ghost predicate EntryNames(c: Config, es: seq<(Text, Text, Text)>, name: Text) {
    exists i :: 0 <= i < |es| && es[i].2 == name && es[i].0 in c.services
  }

  ghost predicate SpecNames(c: Config, specs: seq<Spec>, name: Text) {
    exists i :: 0 <= i < |specs| && specs[i].name == name && SpecCounts(c, specs[i])
  }

  /** Some entry of the configuration names the secret, other than by joining it. */
  ghost predicate IsNeeded(c: Config, specs: seq<Spec>, name: Text) {
    || SpecNames(c, specs, name) || DeclaredAmong(c.plugins, name) || EntryNames(c, c.secretEnv, name)
    || name in c.sandboxSecrets
  }

  /** The entries of the configuration send the secret this way. */
  ghost predicate Sends(c: Config, specs: seq<Spec>, name: Text, r: Route) {
    || SpecSends(c, specs, name, r) || PluginSends(c.plugins, name, r)
    || JoinsAmong(SpecNames(c, specs, name), c.plugins, name, r)
    || EntrySends(c, c.secretEnv, name, r) || (name in c.sandboxSecrets && r == Own(SANDBOX))
  }

  ghost predicate SpecDemands(c: Config, specs: seq<Spec>, name: Text) {
    exists i :: 0 <= i < |specs| && specs[i].name == name && SpecRequires(c, specs[i])
  }

  predicate DemandedAmong(ps: seq<Plugin>, name: Text) {
    exists i :: 0 <= i < |ps| && DeclaresRequired(ps[i], name)
  }

  /** Some entry requires the secret. */
  ghost predicate IsRequired(c: Config, specs: seq<Spec>, name: Text) {
    || SpecDemands(c, specs, name) || DemandedAmong(c.plugins, name) || EntryNames(c, c.secretEnv, name)
    || name in c.sandboxSecrets
  }

  // ---------------------------------------------------------------------------
  // One source behind the other
  // ---------------------------------------------------------------------------

  ghost predicate DeclaredIn(ds: seq<Declaration>, name: Text) {
    DeclaredBefore(ds, |ds|, name)
  }

  /** The declaration is of this secret and applies behind others that have declared it if `known`. */
  ghost predicate Applies(known: bool, ds: seq<Declaration>, k: nat, name: Text) {
    k < |ds| && ds[k].name == name && (ds[k].joins ==> known || DeclaredBefore(ds, k, name))
  }

  ghost predicate RoutesBehind(known: bool, ds: seq<Declaration>, name: Text, r: Route) {
    exists k: nat :: Applies(known, ds, k, name) && ds[k].route == r
  }

  ghost predicate RequiresBehind(known: bool, ds: seq<Declaration>, name: Text) {
    exists k: nat :: Applies(known, ds, k, name) && ds[k].required
  }

  lemma DeclaredBehind(a: seq<Declaration>, b: seq<Declaration>, k: nat, name: Text)
    requires k <= |b|
    ensures DeclaredBefore(a + b, |a| + k, name) <==> DeclaredBefore(a, |a|, name) || DeclaredBefore(b, k, name)
  {
    var ds := a + b;
    if j :| 0 <= j < |a| && a[j].name == name && !a[j].joins {
      assert ds[j] == a[j];
    }
    if j :| 0 <= j < k && b[j].name == name && !b[j].joins {
      assert ds[|a| + j] == b[j];
    }
    if j :| 0 <= j < |a| + k && ds[j].name == name && !ds[j].joins {
      assert j < |a| ==> ds[j] == a[j];
      assert j >= |a| ==> ds[j] == b[j - |a|];
    }
  }

  lemma DeclaredInFront(a: seq<Declaration>, b: seq<Declaration>, k: nat, name: Text)
    requires k <= |a|
    ensures DeclaredBefore(a + b, k, name) <==> DeclaredBefore(a, k, name)
  {
    assert forall j :: 0 <= j < |a| ==> (a + b)[j] == a[j];
  }

  lemma AppliesIn(known: bool, a: seq<Declaration>, b: seq<Declaration>, k: nat, name: Text)
    requires k < |a + b|
    ensures k < |a| ==> (a + b)[k] == a[k] && (Applies(known, a + b, k, name) <==> Applies(known, a, k, name))
    ensures k >= |a| ==>
              && (a + b)[k] == b[k - |a|]
              && (Applies(known, a + b, k, name) <==> Applies(known || DeclaredIn(a, name), b, k - |a|, name))
  {
    hide DeclaredBefore;
    if k < |a| {
      DeclaredInFront(a, b, k, name);
    } else {
      DeclaredBehind(a, b, k - |a|, name);
    }
  }

  lemma AppliesBound(known: bool, ds: seq<Declaration>, k: nat, name: Text)
    ensures Applies(known, ds, k, name) ==> k < |ds|
  {
  }

  /** The declarations of two sources, one behind the other. */
  lemma SourcesConcat(known: bool, a: seq<Declaration>, b: seq<Declaration>, name: Text, r: Route)
    ensures RoutesBehind(known, a + b, name, r) <==>
            RoutesBehind(known, a, name, r) || RoutesBehind(known || DeclaredIn(a, name), b, name, r)
    ensures RequiresBehind(known, a + b, name) <==>
            RequiresBehind(known, a, name) || RequiresBehind(known || DeclaredIn(a, name), b, name)
    ensures DeclaredIn(a + b, name) <==> DeclaredIn(a, name) || DeclaredIn(b, name)
  {
    DeclaredBehind(a, b, |b|, name);
    hide Applies, DeclaredIn;
    var ds, later := a + b, known || DeclaredIn(a, name);
    forall k: nat
      ensures Applies(known, ds, k, name) ==>
                if k < |a| then Applies(known, a, k, name) && ds[k] == a[k]
                else k - |a| < |b| && Applies(later, b, k - |a|, name) && ds[k] == b[k - |a|]
    {
      AppliesBound(known, ds, k, name);
      if k < |ds| {
        AppliesIn(known, a, b, k, name);
      }
    }
    forall k: nat
      ensures Applies(known, a, k, name) ==> k < |a| && Applies(known, ds, k, name) && ds[k] == a[k]
    {
      AppliesBound(known, a, k, name);
      if k < |a| {
        AppliesIn(known, a, b, k, name);
      }
    }
    forall k: nat
      ensures Applies(later, b, k, name) ==> k < |b| && Applies(known, ds, |a| + k, name) && ds[|a| + k] == b[k]
    {
      AppliesBound(later, b, k, name);
      if k < |b| {
        AppliesIn(known, a, b, |a| + k, name);
      }
    }
  }

  lemma NothingSends(known: bool, name: Text, r: Route)
    ensures !RoutesBehind(known, [], name, r) && !RequiresBehind(known, [], name) && !DeclaredIn([], name)
  {
  }

  lemma OneSends(known: bool, d: Declaration, name: Text, r: Route)
    ensures RoutesBehind(known, [d], name, r) <==> d.name == name && d.route == r && (d.joins ==> known)
    ensures RequiresBehind(known, [d], name) <==> d.name == name && d.required && (d.joins ==> known)
    ensures DeclaredIn([d], name) <==> d.name == name && !d.joins
  {
    assert !DeclaredBefore([d], 0, name);
    assert [d][0] == d;
    assert Applies(known, [d], 0, name) <==> d.name == name && (d.joins ==> known);
  }

  lemma RoutesAre(ds: seq<Declaration>, name: Text, r: Route)
    ensures Routes(ds, name, r) <==> RoutesBehind(false, ds, name, r)
    ensures Requires(ds, name) <==> RequiresBehind(false, ds, name)
  {
    hide DeclaredBefore;
    if k :| 0 <= k < |ds| && ds[k].name == name && ds[k].route == r && Counts(ds, k) {
      assert Applies(false, ds, k, name);
    }
    if k :| 0 <= k < |ds| && ds[k].name == name && ds[k].required && Counts(ds, k) {
      assert Applies(false, ds, k, name);
    }
  }

  // ---------------------------------------------------------------------------
  // The four sources
  // ---------------------------------------------------------------------------

  lemma SpecSendsOne(known: bool, c: Config, s: Spec, name: Text, r: Route)
    ensures var ds := FromSpec(c, s);
            && (RoutesBehind(known, ds, name, r) <==> s.name == name && SpecCounts(c, s) && SpecRoute(s) == r)
            && (RequiresBehind(known, ds, name) <==> s.name == name && SpecRequires(c, s))
            && (DeclaredIn(ds, name) <==> s.name == name && SpecCounts(c, s))
  {
    hide RoutesBehind, RequiresBehind, DeclaredIn, Matches;
    NothingSends(known, name, r);
    var ds := FromSpec(c, s);
    if ds != [] {
      OneSends(known, ds[0], name, r);
      assert ds == [ds[0]];
    }
  }

  lemma {:induction false} SpecsSend(known: bool, c: Config, specs: seq<Spec>, name: Text, r: Route)
    ensures var ds := FromSpecs(c, specs);
            && (RoutesBehind(known, ds, name, r) <==> SpecSends(c, specs, name, r))
            && (RequiresBehind(known, ds, name) <==> SpecDemands(c, specs, name))
            && (DeclaredIn(ds, name) <==> SpecNames(c, specs, name))
    decreases |specs|
  {
    hide RoutesBehind, RequiresBehind, DeclaredIn, FromSpec, SpecCounts, SpecRequires, SpecRoute;
    if specs == [] {
      NothingSends(known, name, r);
    } else {
      var a, b := FromSpec(c, specs[0]), FromSpecs(c, specs[1..]);
      SourcesConcat(known, a, b, name, r);
      SpecSendsOne(known, c, specs[0], name, r);
      SpecsSend(known || DeclaredIn(a, name), c, specs[1..], name, r);
      assert forall i :: 1 <= i < |specs| ==> specs[i] == specs[1..][i - 1];
      assert forall i :: 0 <= i < |specs[1..]| ==> specs[1..][i] == specs[i + 1];
    }
  }

  predicate SecretNames(ss: seq<PluginSecret>, name: Text) {
    exists j :: 0 <= j < |ss| && ss[j].name == name
  }

  predicate SecretDemands(ss: seq<PluginSecret>, name: Text) {
    exists j :: 0 <= j < |ss| && ss[j].name == name && ss[j].required
  }

  lemma {:induction false} PluginSecretsSend(known: bool, p: Plugin, ss: seq<PluginSecret>, name: Text, r: Route)
    ensures var ds := FromPluginSecrets(p, ss);
            && (RoutesBehind(known, ds, name, r) <==> SecretNames(ss, name) && r == Own(p.name))
            && (RequiresBehind(known, ds, name) <==> SecretDemands(ss, name))
            && (DeclaredIn(ds, name) <==> SecretNames(ss, name))
    decreases |ss|
  {
    hide RoutesBehind, RequiresBehind, DeclaredIn;
    if ss == [] {
      NothingSends(known, name, r);
    } else {
      var d := Declaration(ss[0].name, Own(p.name), ss[0].required, false, ss[0].description, None, false);
      SourcesConcat(known, [d], FromPluginSecrets(p, ss[1..]), name, r);
      OneSends(known, d, name, r);
      PluginSecretsSend(known || DeclaredIn([d], name), p, ss[1..], name, r);
      assert forall i :: 1 <= i < |ss| ==> ss[i] == ss[1..][i - 1];
      assert forall i :: 0 <= i < |ss[1..]| ==> ss[1..][i] == ss[i + 1];
    }
  }

  lemma PluginSendsOne(known: bool, p: Plugin, name: Text, r: Route)
    ensures var ds := FromPlugin(p);
            && (RoutesBehind(known, ds, name, r) <==>
                r == Own(p.name) && (Declares(p, name) || (name == SIGNING && known)))
            && (RequiresBehind(known, ds, name) <==> DeclaresRequired(p, name))
            && (DeclaredIn(ds, name) <==> Declares(p, name))
  {
    hide RoutesBehind, RequiresBehind, DeclaredIn, Units;
    var join := Declaration(SIGNING, Own(p.name), false, true, [], None, false);
    SourcesConcat(known, [join], FromPluginSecrets(p, p.secrets), name, r);
    OneSends(known, join, name, r);
    PluginSecretsSend(known || DeclaredIn([join], name), p, p.secrets, name, r);
  }

  lemma {:induction false} PluginsSend(known: bool, ps: seq<Plugin>, name: Text, r: Route)
    ensures var ds := FromPlugins(ps);
            && (RoutesBehind(known, ds, name, r) <==> PluginSends(ps, name, r) || JoinsAmong(known, ps, name, r))
            && (RequiresBehind(known, ds, name) <==> DemandedAmong(ps, name))
            && (DeclaredIn(ds, name) <==> DeclaredAmong(ps, name))
    decreases |ps|
  {
    hide RoutesBehind, RequiresBehind, DeclaredIn, Units, FromPlugin, Declares, DeclaresRequired, JoinsAmong;
    if ps == [] {
      NothingSends(known, name, r);
      NoneJoins(known, name, r);
    } else {
      var p, rest := ps[0], ps[1..];
      SourcesConcat(known, FromPlugin(p), FromPlugins(rest), name, r);
      PluginSendsOne(known, p, name, r);
      PluginsSend(known || Declares(p, name), rest, name, r);
      FirstJoins(known, ps, name, r);
      assert forall i :: 1 <= i < |ps| ==> ps[i] == rest[i - 1];
      assert forall i :: 0 <= i < |rest| ==> rest[i] == ps[i + 1];
    }
  }

  lemma NoneJoins(known: bool, name: Text, r: Route)
    ensures !JoinsAmong(known, [], name, r)
  {
  }

  /** The first plugin joins what is known in front of it; the others also what it declares. */
  lemma FirstJoins(known: bool, ps: seq<Plugin>, name: Text, r: Route)
    requires ps != []
    ensures JoinsAmong(known, ps, name, r) <==>
            || (name == SIGNING && r == Own(ps[0].name) && known)
            || JoinsAmong(known || Declares(ps[0], name), ps[1..], name, r)
  {
    hide Units, Declares, DeclaredAmong;
    var rest := ps[1..];
    assert !DeclaredAmong(ps[..0], name) by { NoneDeclared(name); assert ps[..0] == []; }
    forall i | 0 <= i < |rest|
      ensures rest[i] == ps[i + 1]
      ensures DeclaredAmong(ps[..i + 1], name) <==> Declares(ps[0], name) || DeclaredAmong(rest[..i], name)
    {
      assert ps[..i + 1] == [ps[0]] + rest[..i];
      FirstDeclares(ps[0], rest[..i], name);
    }
    if i :| 0 <= i < |ps| && r == Own(ps[i].name) && (known || DeclaredAmong(ps[..i], name)) {
      assert i > 0 ==> rest[i - 1] == ps[i];
    }
    if i :| 0 <= i < |rest| && r == Own(rest[i].name) && (known || Declares(ps[0], name) || DeclaredAmong(rest[..i], name)) {
      assert ps[i + 1] == rest[i];
    }
  }

  lemma NoneDeclared(name: Text)
    ensures !DeclaredAmong([], name)
  {
  }

  lemma FirstDeclares(p: Plugin, ps: seq<Plugin>, name: Text)
    ensures DeclaredAmong([p] + ps, name) <==> Declares(p, name) || DeclaredAmong(ps, name)
  {
    hide Declares;
    var all := [p] + ps;
    assert all[0] == p && forall i :: 0 <= i < |ps| ==> all[i + 1] == ps[i];
    assert forall i :: 1 <= i < |all| ==> all[i] == ps[i - 1];
  }

  lemma {:induction false} EntriesSend(known: bool, c: Config, es: seq<(Text, Text, Text)>, name: Text, r: Route)
    ensures var ds := FromSecretEnv(c, es);
            && (RoutesBehind(known, ds, name, r) <==> EntrySends(c, es, name, r))
            && (RequiresBehind(known, ds, name) <==> EntryNames(c, es, name))
            && (DeclaredIn(ds, name) <==> EntryNames(c, es, name))
    decreases |es|
  {
    hide RoutesBehind, RequiresBehind, DeclaredIn, Units, EntryRoute;
    if es == [] {
      NothingSends(known, name, r);
    } else {
      var rest := FromSecretEnv(c, es[1..]);
      EntriesSend(known, c, es[1..], name, r);
      if es[0].0 in c.services {
        var d := FromSecretEnv(c, es)[0];
        EntryDeclares(c, es);
        SourcesConcat(known, [d], rest, name, r);
        OneSends(known, d, name, r);
        EntriesSend(known || DeclaredIn([d], name), c, es[1..], name, r);
      } else {
        assert FromSecretEnv(c, es) == [] + rest == rest;
      }
      assert forall i :: 1 <= i < |es| ==> es[i] == es[1..][i - 1];
      assert forall i :: 0 <= i < |es[1..]| ==> es[1..][i] == es[i + 1];
    }
  }

  lemma EntryDeclares(c: Config, es: seq<(Text, Text, Text)>)
    requires es != [] && es[0].0 in c.services
    ensures var ds := FromSecretEnv(c, es);
            && ds != [] && ds == [ds[0]] + FromSecretEnv(c, es[1..])
            && ds[0].name == es[0].2 && ds[0].route == EntryRoute(es[0]) && ds[0].required && !ds[0].joins
  {
    hide Units;
  }

  lemma {:induction false} SandboxSends(known: bool, names: seq<Text>, name: Text, r: Route)
    ensures var ds := FromSandbox(names);
            && (RoutesBehind(known, ds, name, r) <==> name in names && r == Own(SANDBOX))
            && (RequiresBehind(known, ds, name) <==> name in names)
            && (DeclaredIn(ds, name) <==> name in names)
    decreases |names|
  {
    hide RoutesBehind, RequiresBehind, DeclaredIn, Units, FromSandbox;
    if names == [] {
      NoSandbox();
      NothingSends(known, name, r);
    } else {
      SandboxDeclares(names);
      var d := FromSandbox(names)[0];
      SourcesConcat(known, [d], FromSandbox(names[1..]), name, r);
      OneSends(known, d, name, r);
      SandboxSends(known || DeclaredIn([d], name), names[1..], name, r);
      assert names == [names[0]] + names[1..];
    }
  }

  lemma NoSandbox()
    ensures FromSandbox([]) == []
  {
  }

  lemma SandboxDeclares(names: seq<Text>)
    requires names != []
    ensures var ds := FromSandbox(names);
            && ds != [] && ds == [ds[0]] + FromSandbox(names[1..])
            && ds[0].name == names[0] && ds[0].route == Own(SANDBOX) && ds[0].required && !ds[0].joins
  {
    hide Units;
  }

  /** The declarations of a configuration say exactly what its entries ask for. */
  lemma DeclarationsSay(c: Config, specs: seq<Spec>, name: Text, r: Route)
    ensures var ds := Declarations(c, specs);
            && (Routes(ds, name, r) <==> Sends(c, specs, name, r))
            && (Requires(ds, name) <==> IsRequired(c, specs, name))
            && (DeclaredBefore(ds, |ds|, name) <==> IsNeeded(c, specs, name))
  {
    hide RoutesBehind, RequiresBehind, Units, FromSpecs, FromPlugins, FromSecretEnv, FromSandbox, Routes, Requires,
         SpecSends, PluginSends, JoinsAmong, EntrySends, SpecDemands, DemandedAmong, EntryNames, SpecNames, DeclaredAmong;
    hide DeclaredBefore;
    var a, b := FromSpecs(c, specs), FromPlugins(c.plugins);
    var e, f := FromSecretEnv(c, c.secretEnv), FromSandbox(c.sandboxSecrets);
    RoutesAre(Declarations(c, specs), name, r);
    SourcesConcat(false, a + b + e, f, name, r);
    SourcesConcat(false, a + b, e, name, r);
    SourcesConcat(false, a, b, name, r);
    SpecsSend(false, c, specs, name, r);
    PluginsSend(SpecNames(c, specs, name), c.plugins, name, r);
    EntriesSend(DeclaredIn(a + b, name), c, c.secretEnv, name, r);
    SandboxSends(DeclaredIn(a + b + e, name), c.sandboxSecrets, name, r);
  }

  // ---------------------------------------------------------------------------
  // Destinations
  // ---------------------------------------------------------------------------

  /** Where a route leads: the sandbox's secrets and those of virtual services go to the core. */
  ghost predicate LeadsTo(name: Text, r: Route, virtual: set<Text>, to: Destination) {
    match r
    case Own(service) =>
      if service == Units("sandbox") then to == (Units("core"), Units("FLY_RESIDENT_ENV_") + name)
      else to == (if service in virtual then Units("core") else service, name)
    case As(service, env) => to == (if service in virtual then Units("core") else service, env)
  }

  lemma RouteLeads(name: Text, r: Route, virtual: set<Text>, to: Destination)
    ensures RouteDestination(name, r, virtual) == to <==> LeadsTo(name, r, virtual, to)
  {
    hide Units;
  }

  /**
   * A secret is listed exactly if an entry of the configuration names it. It reaches exactly the
   * workloads and variables to which the entries send it, with the plugins that get the signing
   * secret, and is required exactly if an entry requires it.
   */
  lemma ConfigurationIsRouted(c: Config, specs: seq<Spec>, before: (Text, Text) -> bool, virtual: set<Text>, name: Text,
                              to: Destination)
    requires IsOrder(before)
    ensures var s := Find(Computed(c, specs, before), name);
            && (s.Some? <==> IsNeeded(c, specs, name))
            && (s.Some? ==> (s.value.required <==> IsRequired(c, specs, name)))
            && (s.Some? ==> (Reaches(s.value, virtual, [], to) <==>
                             exists r :: Sends(c, specs, name, r) && LeadsTo(name, r, virtual, to)))
  {
    hide Units, Declarations, Computed, Find, Reaches, Routes, Requires, DeclaredBefore, Sends, IsRequired, IsNeeded,
         LeadsTo, RouteDestination, SentTo;
    var ds := Declarations(c, specs);
    SecretsAreRouted(c, specs, before, virtual, name, to);
    DeclarationsSay(c, specs, name, Own([]));
    SentByRoute(ds, name, virtual, to);
    forall r ensures Routes(ds, name, r) && RouteDestination(name, r, virtual) == to <==>
                     Sends(c, specs, name, r) && LeadsTo(name, r, virtual, to) {
      DeclarationsSay(c, specs, name, r);
      RouteLeads(name, r, virtual, to);
    }
  }

  // ---------------------------------------------------------------------------
  // Who describes and manages a secret
  // ---------------------------------------------------------------------------

  /** The first declaration of the secret that does not only join it. */
  function FirstOf(ds: seq<Declaration>, name: Text): Option<Declaration> {
    if ds == [] then None else if ds[0].name == name && !ds[0].joins then Some(ds[0]) else FirstOf(ds[1..], name)
  }

  lemma {:induction false} FirstOfConcat(a: seq<Declaration>, b: seq<Declaration>, name: Text)
    ensures FirstOf(a + b, name) == if FirstOf(a, name).Some? then FirstOf(a, name) else FirstOf(b, name)
    decreases |a|
  {
    if a == [] {
      assert a + b == b;
    } else {
      assert (a + b)[1..] == a[1..] + b;
      FirstOfConcat(a[1..], b, name);
    }
  }

  lemma {:induction false} FirstOfHolds(ds: seq<Declaration>, name: Text)
    ensures FirstOf(ds, name).Some? ==> FirstOf(ds, name).value in ds
  {
    if ds != [] {
      FirstOfHolds(ds[1..], name);
      assert ds == [ds[0]] + ds[1..];
    }
  }

  /** The merge keeps the description, the generator and the manager of the first declaration. */
  lemma {:induction false} FirstDescribes(ds: seq<Declaration>, name: Text)
    ensures Find(MergeAll([], ds), name).Some? <==> FirstOf(ds, name).Some?
    ensures Find(MergeAll([], ds), name).Some? ==>
              var s, d := Find(MergeAll([], ds), name).value, FirstOf(ds, name).value;
              s.description == d.description && s.generate == d.generate && s.terraform == d.terraform
    decreases |ds|
  {
    hide Merge, MergeAll, Find, Absorb, NewSecret;
    if ds == [] {
      MergeNothing(name, Own([]));
    } else {
      var n := |ds| - 1;
      var d := ds[n];
      assert ds == ds[..n] + [d];
      FirstDescribes(ds[..n], name);
      MergeLast([], ds[..n], d);
      FindMerged(MergeAll([], ds[..n]), d, name);
      FirstOfConcat(ds[..n], [d], name);
      assert [d][1..] == [] && FirstOf([], name) == None;
      var s := Find(MergeAll([], ds[..n]), name);
      AbsorbKeeps(if s.Some? then s.value else NewSecret(d), d);
    }
  }

  lemma AbsorbKeeps(s: Secret, d: Declaration)
    ensures var t := Absorb(s, d);
            t.description == s.description && t.generate == s.generate && t.terraform == s.terraform
    ensures var t := NewSecret(d);
            t.description == d.description && t.generate == d.generate && t.terraform == d.terraform
  {
  }

  /** The first entry of the first-party list that names the secret and counts. */
  ghost predicate IsFirstSpec(c: Config, specs: seq<Spec>, name: Text, i: nat) {
    && i < |specs| && specs[i].name == name && SpecCounts(c, specs[i])
    && forall j :: 0 <= j < i ==> specs[j].name != name || !SpecCounts(c, specs[j])
  }

  lemma {:induction false} FirstSpec(c: Config, specs: seq<Spec>, name: Text) returns (i: nat)
    ensures var d := FirstOf(FromSpecs(c, specs), name);
            && (d.None? ==> !SpecNames(c, specs, name))
            && (d.Some? ==>
                  && IsFirstSpec(c, specs, name, i) && d.value.description == specs[i].description
                  && d.value.generate == specs[i].generate && d.value.terraform == specs[i].terraform)
  {
    hide Matches, RequirementFor, SpecCounts;
    i := 0;
    if specs != [] {
      var s, rest := specs[0], specs[1..];
      var k := FirstSpec(c, rest, name);
      FirstOfConcat(FromSpec(c, s), FromSpecs(c, rest), name);
      FirstOfSpec(c, s, name);
      assert forall j :: 1 <= j < |specs| ==> specs[j] == rest[j - 1];
      if FirstOf(FromSpec(c, s), name).None? {
        i := k + 1;
      }
    }
  }

  lemma FirstOfSpec(c: Config, s: Spec, name: Text)
    ensures var d := FirstOf(FromSpec(c, s), name);
            && (d.Some? <==> s.name == name && SpecCounts(c, s))
            && (d.Some? ==> d.value.description == s.description && d.value.generate == s.generate
                            && d.value.terraform == s.terraform)
  {
    hide Matches;
    var ds := FromSpec(c, s);
    if ds != [] {
      assert ds[1..] == [];
    }
    assert FirstOf([], name) == None;
  }

  predicate IsOperators(d: Declaration) {
    d.generate.None? && !d.terraform
  }

  lemma {:induction false} PluginSecretsAreOperators(p: Plugin, ss: seq<PluginSecret>)
    ensures forall d :: d in FromPluginSecrets(p, ss) ==> IsOperators(d)
  {
    if ss != [] {
      PluginSecretsAreOperators(p, ss[1..]);
    }
  }

  lemma {:induction false} PluginsAreOperators(ps: seq<Plugin>)
    ensures forall d :: d in FromPlugins(ps) ==> IsOperators(d)
  {
    hide Units;
    if ps != [] {
      PluginSecretsAreOperators(ps[0], ps[0].secrets);
      PluginsAreOperators(ps[1..]);
    }
  }

  lemma {:induction false} EntriesAreOperators(c: Config, es: seq<(Text, Text, Text)>)
    ensures forall d :: d in FromSecretEnv(c, es) ==> IsOperators(d)
  {
    hide Units;
    if es != [] {
      EntriesAreOperators(c, es[1..]);
    }
  }

  lemma {:induction false} SandboxIsOperators(names: seq<Text>)
    ensures forall d :: d in FromSandbox(names) ==> IsOperators(d)
  {
    hide Units;
    if names != [] {
      SandboxIsOperators(names[1..]);
    }
  }

  /**
   * A listed secret has the description, the generator and the manager of the first first-party entry
   * that names it and counts; without one, it has no generator and the operator manages it.
   */
  lemma FirstEntryManages(c: Config, specs: seq<Spec>, before: (Text, Text) -> bool, name: Text) returns (i: nat)
    requires IsOrder(before) && IsNeeded(c, specs, name)
    ensures Find(Computed(c, specs, before), name).Some?
    ensures var s := Find(Computed(c, specs, before), name).value;
            if SpecNames(c, specs, name) then
              && IsFirstSpec(c, specs, name, i) && s.description == specs[i].description
              && s.generate == specs[i].generate && s.terraform == specs[i].terraform
            else s.generate.None? && !s.terraform
  {
    hide Units, FromSpecs, FromPlugins, FromSecretEnv, FromSandbox, MergeAll, SortByName, Find, IsNeeded, SpecNames, FirstOf;
    var ds := Declarations(c, specs);
    var merged := MergeAll([], ds);
    ConfigurationIsRouted(c, specs, before, {}, name, (name, name));
    MergedNamesDistinct([], ds);
    Sorts(merged, before);
    AscendingDistinct(SortByName(merged, before), before);
    FindIn(merged, name);
    FindIn(SortByName(merged, before), name);
    FirstDescribes(ds, name);
    i := FirstSpec(c, specs, name);
    OthersAreOperators(c, specs, name);
    SpecsSend(false, c, specs, name, Own([]));
    FirstIsDeclared(FromSpecs(c, specs), name);
  }

  lemma {:induction false} FirstIsDeclared(ds: seq<Declaration>, name: Text)
    ensures FirstOf(ds, name).Some? <==> DeclaredIn(ds, name)
  {
    if ds != [] {
      FirstIsDeclared(ds[1..], name);
      SourcesConcat(false, [ds[0]], ds[1..], name, Own([]));
      OneSends(false, ds[0], name, Own([]));
      assert ds == [ds[0]] + ds[1..];
    } else {
      NothingSends(false, name, Own([]));
    }
  }

  lemma OthersAreOperators(c: Config, specs: seq<Spec>, name: Text)
    ensures var first, all := FirstOf(FromSpecs(c, specs), name), FirstOf(Declarations(c, specs), name);
            if first.Some? then all == first else all.Some? ==> IsOperators(all.value)
  {
    hide Units, FromSpecs, FromPlugins, FromSecretEnv, FromSandbox, FirstOf;
    var a, b := FromSpecs(c, specs), FromPlugins(c.plugins);
    var e, f := FromSecretEnv(c, c.secretEnv), FromSandbox(c.sandboxSecrets);
    FirstOfConcat(a + b + e, f, name);
    FirstOfConcat(a + b, e, name);
    FirstOfConcat(a, b, name);
    FirstOfHolds(b, name);
    FirstOfHolds(e, name);
    FirstOfHolds(f, name);
    PluginsAreOperators(c.plugins);
    EntriesAreOperators(c, c.secretEnv);
    SandboxIsOperators(c.sandboxSecrets);
  }
}
