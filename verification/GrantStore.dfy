// The in-memory grant store and its compare-and-replace of one resource's grants.

module GrantStore {

  datatype Grant = Grant(owner: string, ref: string, grantee: string, permission: string, grantedBy: string)

  /** Equal keys; who granted it is no part of the key. */
  predicate SameGrant(a: Grant, b: Grant) {
    a.owner == b.owner && a.ref == b.ref && a.grantee == b.grantee && a.permission == b.permission
  }

  predicate HasKey(x: Grant, owner: string, ref: string, grantee: string, permission: string) {
    x.owner == owner && x.ref == ref && x.grantee == grantee && x.permission == permission
  }

  predicate IsOf(g: Grant, owner: string, ref: string) {
    g.owner == owner && g.ref == ref
  }

  predicate SameGrantSet(a: seq<Grant>, b: seq<Grant>) {
    |a| == |b| && forall g :: g in a ==> g in b
  }

  // ---------------------------------------------------------------------------
  // Specification
  // ---------------------------------------------------------------------------

  /** The grants of one resource, in order. */
  function Of(gs: seq<Grant>, owner: string, ref: string): seq<Grant> {
    if gs == [] then [] else (if IsOf(gs[0], owner, ref) then [gs[0]] else []) + Of(gs[1..], owner, ref)
  }

  function NotOf(gs: seq<Grant>, owner: string, ref: string): seq<Grant> {
    if gs == [] then [] else (if IsOf(gs[0], owner, ref) then [] else [gs[0]]) + NotOf(gs[1..], owner, ref)
  }

  function Unlike(gs: seq<Grant>, g: Grant): seq<Grant> {
    if gs == [] then [] else (if SameGrant(gs[0], g) then [] else [gs[0]]) + Unlike(gs[1..], g)
  }

  predicate Has(gs: seq<Grant>, g: Grant) {
    exists k :: 0 <= k < |gs| && SameGrant(gs[k], g)
  }

  function AfterPut(gs: seq<Grant>, g: Grant): seq<Grant> {
    if Has(gs, g) then gs else gs + [g]
  }

  function AfterReplace(gs: seq<Grant>, owner: string, ref: string, expected: seq<Grant>, replacement: seq<Grant>)
    : (seq<Grant>, bool)
  {
    if SameGrantSet(Of(gs, owner, ref), expected) then (NotOf(gs, owner, ref) + replacement, true) else (gs, false)
  }

  // ---------------------------------------------------------------------------
  // The store
  // ---------------------------------------------------------------------------

  method IsSameGrantSet(a: seq<Grant>, b: seq<Grant>) returns (r: bool)
    ensures r == SameGrantSet(a, b)
  {
    if |a| != |b| {
      return false;
    }
    for i := 0 to |a|
      invariant forall k :: 0 <= k < i ==> a[k] in b
    {
      if a[i] !in b {
        return false;
      }
    }
    return true;
  }

  /** Splicing out the element at `i` of a list whose tail behind `i` is `rest`. */
  lemma Spliced(all: seq<Grant>, i: nat, rest: seq<Grant>)
    requires i < |all|
    ensures all[i..][0] == all[i] && all[i..][1..] == all[i + 1..]
    ensures var gs := all[..i + 1] + rest;
            && gs[i] == all[i] && gs[..i] + gs[i + 1..] == all[..i] + rest && gs == all[..i] + ([all[i]] + rest)
            && all[..i] + ([] + rest) == all[..i] + rest
  {
    assert all[..i + 1] == all[..i] + [all[i]];
    assert (all[..i + 1] + rest)[i + 1..] == rest && (all[..i + 1] + rest)[..i] == all[..i];
  }

  class Persistence {
    var grants: seq<Grant>

    constructor ()
      ensures grants == []
    {
      grants := [];
    }

    method Put(g: Grant)
      modifies this
      ensures grants == AfterPut(old(grants), g)
      ensures grants ==
              if exists k :: 0 <= k < |old(grants)| && HasKey(old(grants)[k], g.owner, g.ref, g.grantee, g.permission)
              then old(grants) else old(grants) + [g]
    {
      for i := 0 to |grants|
        invariant grants == old(grants) && forall k :: 0 <= k < i ==> !SameGrant(grants[k], g)
      {
        if SameGrant(grants[i], g) {
          return;
        }
      }
      grants := grants + [g];
    }

    /** Splices out, from the back, every grant with the key. */
    method Remove(g: Grant)
      modifies this
      ensures grants == Unlike(old(grants), g)
    {
      ghost var all := grants;
      var i := |grants|;
      while i > 0
        invariant 0 <= i <= |all| && grants == all[..i] + Unlike(all[i..], g)
      {
        i := i - 1;
        Spliced(all, i, Unlike(all[i + 1..], g));
        if SameGrant(grants[i], g) {
          grants := grants[..i] + grants[i + 1..];
        }
      }
      assert all[0..] == all && all[..0] + Unlike(all, g) == Unlike(all, g);
    }

    method CurrentOf(owner: string, ref: string) returns (current: seq<Grant>)
      ensures current == Of(grants, owner, ref)
    {
      current := [];
      for i := 0 to |grants|
        invariant current + Of(grants[i..], owner, ref) == Of(grants, owner, ref)
      {
        assert grants[i..][1..] == grants[i + 1..];
        if IsOf(grants[i], owner, ref) {
          current := current + [grants[i]];
        }
      }
    }

    /** Splices out, from the back, every grant of the resource. */
    method RemoveOf(owner: string, ref: string)
      modifies this
      ensures grants == NotOf(old(grants), owner, ref)
    {
      ghost var all := grants;
      var i := |grants|;
      while i > 0
        invariant 0 <= i <= |all| && grants == all[..i] + NotOf(all[i..], owner, ref)
      {
        i := i - 1;
        Spliced(all, i, NotOf(all[i + 1..], owner, ref));
        if IsOf(grants[i], owner, ref) {
          grants := grants[..i] + grants[i + 1..];
        }
      }
      assert all[0..] == all && all[..0] + NotOf(all, owner, ref) == NotOf(all, owner, ref);
    }

    /** Replaces the resource's grants if they still are the expected ones. */
    method ReplaceForResourceIfCurrent(owner: string, ref: string, expected: seq<Grant>, replacement: seq<Grant>)
      returns (done: bool)
      modifies this
      ensures (grants, done) == AfterReplace(old(grants), owner, ref, expected, replacement)
    {
      hide Of, NotOf, SameGrantSet;
      var current := CurrentOf(owner, ref);
      var same := IsSameGrantSet(current, expected);
      if !same {
        return false;
      }
      RemoveOf(owner, ref);
      grants := grants + replacement;
      return true;
    }
  }

  datatype Refusal = NotManager | OtherResource

  datatype Replaced = Answer(done: bool) | Refused(why: Refusal)

  predicate BelongsTo(gs: seq<Grant>, owner: string, ref: string) {
    forall k :: 0 <= k < |gs| ==> IsOf(gs[k], owner, ref)
  }

  /** replaceGrantsIfCurrent: only a manager may replace grants, and only by grants of the resource. */
  method ReplaceGrantsIfCurrent(store: Persistence, manages: bool, owner: string, ref: string, expected: seq<Grant>,
                                replacement: seq<Grant>)
    returns (r: Replaced)
    modifies store
    ensures !manages ==> r == Refused(NotManager)
    ensures manages && !(BelongsTo(expected, owner, ref) && BelongsTo(replacement, owner, ref)) ==>
              r == Refused(OtherResource)
    ensures manages && BelongsTo(expected, owner, ref) && BelongsTo(replacement, owner, ref) ==>
              r.Answer? && (store.grants, r.done) == AfterReplace(old(store.grants), owner, ref, expected, replacement)
    ensures r.Refused? ==> store.grants == old(store.grants)
  {
    if !manages {
      return Refused(NotManager);
    }
    if !BelongsTo(expected, owner, ref) || !BelongsTo(replacement, owner, ref) {
      return Refused(OtherResource);
    }
    var done := store.ReplaceForResourceIfCurrent(owner, ref, expected, replacement);
    return Answer(done);
  }

  // ---------------------------------------------------------------------------
  // When two lists are the same grants
  // ---------------------------------------------------------------------------

  ghost predicate NoRepeats(gs: seq<Grant>) {
    forall a, b :: 0 <= a < b < |gs| ==> gs[a] != gs[b]
  }

  /** No two grants have the same key. */
  ghost predicate KeysDistinct(gs: seq<Grant>) {
    forall a, b :: 0 <= a < b < |gs| ==> !SameGrant(gs[a], gs[b])
  }

  function Without(gs: seq<Grant>, k: nat): seq<Grant>
    requires k < |gs|
  {
    gs[..k] + gs[k + 1..]
  }

  lemma WithoutMultiset(gs: seq<Grant>, k: nat)
    requires k < |gs|
    ensures multiset(gs) == multiset{gs[k]} + multiset(Without(gs, k))
  {
    assert gs == gs[..k] + [gs[k]] + gs[k + 1..];
  }

  /** Against a list without repetitions, equal length and inclusion mean equal multisets. */
  lemma {:induction false} InclusionIsEquality(a: seq<Grant>, b: seq<Grant>)
    requires NoRepeats(a) && SameGrantSet(a, b)
    ensures multiset(a) == multiset(b)
    decreases |a|
  {
    if a != [] {
      assert a[0] in a;
      var k :| 0 <= k < |b| && b[k] == a[0];
      var c := Without(b, k);
      forall g | g in a[1..] ensures g in c {
        var j :| 0 <= j < |a[1..]| && a[1..][j] == g;
        assert a[j + 1] == g && g != a[0] && g in a;
        var m :| 0 <= m < |b| && b[m] == g;
        assert if m < k then c[m] == g else c[m - 1] == g;
      }
      InclusionIsEquality(a[1..], c);
      WithoutMultiset(b, k);
      assert a == [a[0]] + a[1..];
    } else {
      assert b == [];
    }
  }

  lemma EqualMultisetsAreSame(a: seq<Grant>, b: seq<Grant>)
    requires multiset(a) == multiset(b)
    ensures SameGrantSet(a, b)
  {
    assert |multiset(a)| == |a| && |multiset(b)| == |b|;
    forall g | g in a ensures g in b {
      assert g in multiset(a);
    }
  }

  /** The grants of a list with repetitions can be confused with others. */
  lemma RepeatsConfuse(a: seq<Grant>, i: nat, j: nat, other: Grant)
    requires i < j < |a| && a[i] == a[j] && other !in a
    ensures SameGrantSet(a, a[j := other]) && multiset(a) != multiset(a[j := other])
  {
    var b := a[j := other];
    forall g | g in a ensures g in b {
      var k :| 0 <= k < |a| && a[k] == g;
      assert b[if k == j then i else k] == g;
    }
    assert b[j] == other && other in multiset(b) && other !in multiset(a);
  }

  function Longest(gs: seq<Grant>): nat {
    if gs == [] then 0
    else if |gs[0].owner| >= Longest(gs[1..]) then |gs[0].owner| else Longest(gs[1..])
  }

  lemma {:induction false} LongestBounds(gs: seq<Grant>)
    ensures forall g :: g in gs ==> |g.owner| <= Longest(gs)
  {
    if gs != [] {
      LongestBounds(gs[1..]);
      assert gs == [gs[0]] + gs[1..];
    }
  }

  /** A grant that is not in the list. */
  function Stranger(gs: seq<Grant>): Grant {
    Grant(seq(Longest(gs) + 1, _ => 'x'), "", "", "", "")
  }

  /**
   * sameGrantSet decides multiset equality for every expectation exactly when the current grants
   * have no repetition.
   */
  lemma SameSetIsMultisetEquality(a: seq<Grant>)
    ensures NoRepeats(a) <==> forall b :: SameGrantSet(a, b) <==> multiset(a) == multiset(b)
  {
    if NoRepeats(a) {
      forall b ensures SameGrantSet(a, b) <==> multiset(a) == multiset(b) {
        if SameGrantSet(a, b) {
          InclusionIsEquality(a, b);
        }
        if multiset(a) == multiset(b) {
          EqualMultisetsAreSame(a, b);
        }
      }
    } else {
      var i, j :| 0 <= i < j < |a| && a[i] == a[j];
      LongestBounds(a);
      RepeatsConfuse(a, i, j, Stranger(a));
      assert SameGrantSet(a, a[j := Stranger(a)]);
    }
  }

  // ---------------------------------------------------------------------------
  // What every operation keeps
  // ---------------------------------------------------------------------------

  lemma PutKeepsKeys(gs: seq<Grant>, g: Grant)
    requires KeysDistinct(gs)
    ensures KeysDistinct(AfterPut(gs, g))
  {
  }

  lemma {:induction false} UnlikeAre(gs: seq<Grant>, g: Grant)
    requires KeysDistinct(gs)
    ensures KeysDistinct(Unlike(gs, g))
    ensures forall x :: x in Unlike(gs, g) <==> x in gs && !SameGrant(x, g)
  {
    if gs != [] {
      var rest := Unlike(gs[1..], g);
      UnlikeAre(gs[1..], g);
      assert gs == [gs[0]] + gs[1..];
      forall k | 0 <= k < |rest| ensures !SameGrant(gs[0], rest[k]) {
        InTail(gs, rest[k]);
      }
    }
  }

  /** The grants without the key among the first `k`. */
  function OthersBefore(gs: seq<Grant>, g: Grant, k: nat): nat
    requires k <= |gs|
  {
    if k == 0 then 0
    else OthersBefore(gs, g, k - 1) + if HasKey(gs[k - 1], g.owner, g.ref, g.grantee, g.permission) then 0 else 1
  }

  lemma {:induction false} OthersBehindFirst(gs: seq<Grant>, g: Grant, k: nat)
    requires k < |gs|
    ensures OthersBefore(gs, g, k + 1) == (if SameGrant(gs[0], g) then 0 else 1) + OthersBefore(gs[1..], g, k)
  {
    if k > 0 {
      OthersBehindFirst(gs, g, k - 1);
    } else {
      assert OthersBefore(gs, g, 0) == 0;
    }
  }

  /** A grant that stays at place `a` when a key is removed has `a` grants without the key in front of it. */
  lemma {:induction false} KeptAt(gs: seq<Grant>, g: Grant, a: nat) returns (k: nat)
    requires a < |Unlike(gs, g)|
    ensures k < |gs| && gs[k] == Unlike(gs, g)[a] && OthersBefore(gs, g, k) == a
    ensures !HasKey(gs[k], g.owner, g.ref, g.grantee, g.permission)
  {
    var first := !SameGrant(gs[0], g);
    if first && a == 0 {
      k := 0;
    } else {
      k := KeptAt(gs[1..], g, if first then a - 1 else a);
      OthersBehindFirst(gs, g, k);
      k := k + 1;
    }
  }

  /** Removing a key removes every grant that has it, and no other. */
  lemma {:induction false} AllKept(gs: seq<Grant>, g: Grant)
    ensures |Unlike(gs, g)| == OthersBefore(gs, g, |gs|)
  {
    if gs != [] {
      AllKept(gs[1..], g);
      OthersBehindFirst(gs, g, |gs| - 1);
    }
  }

  lemma InTail(gs: seq<Grant>, x: Grant)
    requires gs != [] && KeysDistinct(gs) && x in gs[1..]
    ensures !SameGrant(gs[0], x)
  {
    var j :| 0 <= j < |gs[1..]| && gs[1..][j] == x;
    assert gs[j + 1] == x;
  }

  lemma {:induction false} SplitByResource(gs: seq<Grant>, owner: string, ref: string)
    requires KeysDistinct(gs)
    ensures KeysDistinct(Of(gs, owner, ref)) && KeysDistinct(NotOf(gs, owner, ref))
    ensures forall x :: x in Of(gs, owner, ref) <==> x in gs && IsOf(x, owner, ref)
    ensures forall x :: x in NotOf(gs, owner, ref) <==> x in gs && !IsOf(x, owner, ref)
  {
    if gs != [] {
      SplitByResource(gs[1..], owner, ref);
      assert gs == [gs[0]] + gs[1..];
      var of, no := Of(gs[1..], owner, ref), NotOf(gs[1..], owner, ref);
      forall k | 0 <= k < |of| ensures !SameGrant(gs[0], of[k]) {
        InTail(gs, of[k]);
      }
      forall k | 0 <= k < |no| ensures !SameGrant(gs[0], no[k]) {
        InTail(gs, no[k]);
      }
    }
  }

  lemma KeysDistinctNoRepeats(gs: seq<Grant>)
    requires KeysDistinct(gs)
    ensures NoRepeats(gs)
  {
  }

  /** Replacing by grants of the resource with distinct keys keeps all keys distinct. */
  lemma ReplaceKeepsKeys(gs: seq<Grant>, owner: string, ref: string, expected: seq<Grant>, replacement: seq<Grant>)
    requires KeysDistinct(gs) && KeysDistinct(replacement) && BelongsTo(replacement, owner, ref)
    ensures KeysDistinct(AfterReplace(gs, owner, ref, expected, replacement).0)
  {
    SplitByResource(gs, owner, ref);
    var no := NotOf(gs, owner, ref);
    forall k | 0 <= k < |no| ensures !IsOf(no[k], owner, ref) {
      assert no[k] in no;
    }
  }

  predicate EndsWith(gs: seq<Grant>, last: seq<Grant>) {
    |last| <= |gs| && gs[|gs| - |last|..] == last
  }

  lemma {:induction false} OfConcat(a: seq<Grant>, b: seq<Grant>, owner: string, ref: string)
    ensures Of(a + b, owner, ref) == Of(a, owner, ref) + Of(b, owner, ref)
    decreases |a|
  {
    hide Of, IsOf;
    if a == [] {
      NoneOf(owner, ref);
      assert a + b == b && [] + Of(b, owner, ref) == Of(b, owner, ref);
    } else {
      assert a == [a[0]] + a[1..] && a + b == [a[0]] + (a[1..] + b);
      OfCons(a[0], a[1..], owner, ref);
      OfCons(a[0], a[1..] + b, owner, ref);
      OfConcat(a[1..], b, owner, ref);
    }
  }

  lemma NoneOf(owner: string, ref: string)
    ensures Of([], owner, ref) == []
  {
  }

  lemma OfCons(g: Grant, gs: seq<Grant>, owner: string, ref: string)
    ensures Of([g] + gs, owner, ref) == (if IsOf(g, owner, ref) then [g] else []) + Of(gs, owner, ref)
  {
    hide IsOf;
    assert ([g] + gs)[1..] == gs;
  }

  lemma {:induction false} OfOwn(gs: seq<Grant>, owner: string, ref: string)
    requires BelongsTo(gs, owner, ref)
    ensures Of(gs, owner, ref) == gs
  {
    if gs != [] {
      OfOwn(gs[1..], owner, ref);
    }
  }

  lemma {:induction false} OfOthers(gs: seq<Grant>, owner: string, ref: string, owner2: string, ref2: string)
    requires BelongsTo(gs, owner, ref) && (owner2 != owner || ref2 != ref)
    ensures Of(gs, owner2, ref2) == []
  {
    if gs != [] {
      OfOthers(gs[1..], owner, ref, owner2, ref2);
    }
  }

  lemma {:induction false} OfRest(gs: seq<Grant>, owner: string, ref: string, owner2: string, ref2: string)
    ensures Of(NotOf(gs, owner, ref), owner2, ref2) ==
            if owner2 == owner && ref2 == ref then [] else Of(gs, owner2, ref2)
  {
    if gs != [] {
      var no := NotOf(gs[1..], owner, ref);
      OfRest(gs[1..], owner, ref, owner2, ref2);
      assert [] + no == no && ([gs[0]] + no)[1..] == no;
      if IsOf(gs[0], owner, ref) && !(owner2 == owner && ref2 == ref) {
        assert [] + Of(gs[1..], owner2, ref2) == Of(gs[1..], owner2, ref2);
      }
    }
  }

  /**
   * Replace-if-current succeeds exactly when the resource's grants are the expected ones as a
   * multiset; then the resource has exactly the replacement, and every other resource its old grants.
   */
  lemma ReplaceIfCurrent(gs: seq<Grant>, owner: string, ref: string, expected: seq<Grant>, replacement: seq<Grant>,
                         owner2: string, ref2: string)
    requires KeysDistinct(gs) && BelongsTo(replacement, owner, ref)
    ensures var (after, done) := AfterReplace(gs, owner, ref, expected, replacement);
            && (done <==> multiset(Of(gs, owner, ref)) == multiset(expected))
            && (done ==> Of(after, owner, ref) == replacement && EndsWith(after, replacement))
            && (!done ==> after == gs)
            && (owner2 != owner || ref2 != ref ==> Of(after, owner2, ref2) == Of(gs, owner2, ref2))
  {
    hide SameGrantSet, Of, NotOf, KeysDistinct, NoRepeats, BelongsTo, IsOf;
    var current := Of(gs, owner, ref);
    assert [] + replacement == replacement;
    SplitByResource(gs, owner, ref);
    KeysDistinctNoRepeats(current);
    if SameGrantSet(current, expected) {
      InclusionIsEquality(current, expected);
      OfConcat(NotOf(gs, owner, ref), replacement, owner, ref);
      OfRest(gs, owner, ref, owner, ref);
      OfOwn(replacement, owner, ref);
      if owner2 != owner || ref2 != ref {
        OfConcat(NotOf(gs, owner, ref), replacement, owner2, ref2);
        OfRest(gs, owner, ref, owner2, ref2);
        OfOthers(replacement, owner, ref, owner2, ref2);
        assert Of(gs, owner2, ref2) + [] == Of(gs, owner2, ref2);
      }
    } else if multiset(current) == multiset(expected) {
      EqualMultisetsAreSame(current, expected);
    }
  }

  /** Of two calls with the same snapshot, a first one that changes the grants makes the second fail. */
  lemma SecondWriterLoses(gs: seq<Grant>, owner: string, ref: string, expected: seq<Grant>, first: seq<Grant>,
                          second: seq<Grant>)
    requires KeysDistinct(gs) && KeysDistinct(first) && BelongsTo(first, owner, ref) && BelongsTo(second, owner, ref)
    requires AfterReplace(gs, owner, ref, expected, first).1 && multiset(first) != multiset(expected)
    ensures var between := AfterReplace(gs, owner, ref, expected, first).0;
            AfterReplace(between, owner, ref, expected, second) == (between, false)
  {
    var between := AfterReplace(gs, owner, ref, expected, first).0;
    ReplaceIfCurrent(gs, owner, ref, expected, first, owner, ref);
    ReplaceKeepsKeys(gs, owner, ref, expected, first);
    ReplaceIfCurrent(between, owner, ref, expected, second, owner, ref);
  }

  // ---------------------------------------------------------------------------
  // Runs of the store
  // ---------------------------------------------------------------------------

  datatype Call =
    | DoPut(g: Grant)
    | DoRemove(g: Grant)
    | DoReplace(owner: string, ref: string, expected: seq<Grant>, replacement: seq<Grant>)

  function After(gs: seq<Grant>, c: Call): seq<Grant> {
    match c
    case DoPut(g) => AfterPut(gs, g)
    case DoRemove(g) => Unlike(gs, g)
    case DoReplace(o, r, e, n) => AfterReplace(gs, o, r, e, n).0
  }

  function AfterAll(gs: seq<Grant>, cs: seq<Call>): seq<Grant>
    decreases |cs|
  {
    if cs == [] then gs else AfterAll(After(gs, cs[0]), cs[1..])
  }

  ghost predicate WellDone(c: Call) {
    c.DoReplace? ==> KeysDistinct(c.replacement) && BelongsTo(c.replacement, c.owner, c.ref)
  }

  /** A store that is only given replacements with distinct keys never repeats a key. */
  lemma {:induction false} KeysStayDistinct(gs: seq<Grant>, cs: seq<Call>)
    requires KeysDistinct(gs) && forall k :: 0 <= k < |cs| ==> WellDone(cs[k])
    ensures KeysDistinct(AfterAll(gs, cs))
    decreases |cs|
  {
    hide KeysDistinct, AfterPut, Unlike, AfterReplace;
    if cs != [] {
      assert WellDone(cs[0]);
      match cs[0] {
        case DoPut(g) => PutKeepsKeys(gs, g);
        case DoRemove(g) => UnlikeAre(gs, g);
        case DoReplace(o, r, e, n) => ReplaceKeepsKeys(gs, o, r, e, n);
      }
      KeysStayDistinct(After(gs, cs[0]), cs[1..]);
    }
  }
}
