/**
 Building and validating a policy from its configuration, so that a broken
 policy fails at load: shapes, duplicates, dangling references and cycles.
 */
module PolicyLoad {
  import opened Common
  import opened Policy
  import opened Evaluation

  /** A configured duration after time-to-live parsing. */
  datatype WaitSpec = Parsed(ttl: Ttl) | Unparseable

  datatype FactorSpec = FactorSpec(
      weight: u32, authenticator: Option<string>, group: Option<string>, wait: Option<WaitSpec>)

  /** A named group or profile. */
  datatype AuthoritySpec = AuthoritySpec(id: string, threshold: u32, factors: seq<FactorSpec>)

  /** A configured authenticator; `usable` is the verdict on its key material. */
  datatype AuthenticatorSpec = AuthenticatorSpec(id: string, usable: bool)

  datatype ApprovalSpec = ApprovalSpec(
    authenticators: seq<AuthenticatorSpec>, groups: seq<AuthoritySpec>, profiles: seq<AuthoritySpec>)

  datatype AuthorityError =
    | NoProfiles
    | EmptyId
    | UnusableMaterial(id: string)
    | Duplicate(id: string)
    | ZeroThreshold(id: string)
    | NoFactors(id: string)
    | ZeroWeight(id: string)
    | BadFactor(id: string)
    | BadWait(id: string)
    | Unsatisfiable(id: string, available: nat)
    | Dangling(id: string)
    | GroupCycle(id: string)

  function SetCount(f: FactorSpec): nat {
    (if f.authenticator.Some? then 1 else 0) + (if f.group.Some? then 1 else 0) + (if f.wait.Some? then 1 else 0)
  }

  /** The configured factor says this and nothing else. */
  predicate Says(f: FactorSpec, factor: Factor) {
    match factor
    case Authenticator(id) => f.authenticator == Some(id) && f.group.None? && f.wait.None?
    case Group(id) => f.authenticator.None? && f.group == Some(id) && f.wait.None?
    case Wait(dur) =>
      f.authenticator.None? && f.group.None? && f.wait.Some? && f.wait.value.Parsed? && f.wait.value.ttl == dur
  }

  predicate FactorAcceptable(f: FactorSpec) {
    && f.weight > 0
    && (|| (f.authenticator.Some? && f.group.None? && f.wait.None?)
        || (f.authenticator.None? && f.group.Some? && f.wait.None?)
        || (f.authenticator.None? && f.group.None? && f.wait.Some? && f.wait.value.Parsed?))
  }

  function FactorOf(f: FactorSpec): (factor: Factor)
    requires FactorAcceptable(f)
    ensures Says(f, factor)
  {
    if f.authenticator.Some? then Authenticator(f.authenticator.value)
    else if f.group.Some? then Group(f.group.value)
    else Wait(f.wait.value.ttl)
  }

  function Available(fs: seq<FactorSpec>): nat {
    if fs == [] then 0 else Available(fs[..|fs| - 1]) + fs[|fs| - 1].weight
  }

  predicate Acceptable(s: AuthoritySpec) {
    && s.id != ""
    && s.threshold > 0
    && s.factors != []
    && (forall k :: 0 <= k < |s.factors| ==> FactorAcceptable(s.factors[k]))
    && s.threshold <= Available(s.factors)
  }

  /** `a` says what the configuration says, factor by factor. */
  ghost predicate Builds(s: AuthoritySpec, a: Authority) {
    && Acceptable(s)
    && a.threshold == s.threshold
    && |a.factors| == |s.factors|
    && forall k :: 0 <= k < |s.factors| ==>
         a.factors[k].weight == s.factors[k].weight && Says(s.factors[k], a.factors[k].factor)
  }

  /** The error names a fault the configuration really has. */
  ghost predicate Blames(s: AuthoritySpec, e: AuthorityError) {
    match e
    case EmptyId => s.id == ""
    case ZeroThreshold(_) => s.threshold == 0
    case NoFactors(_) => s.factors == []
    case ZeroWeight(_) => exists f :: f in s.factors && f.weight == 0
    case BadFactor(_) => exists f :: f in s.factors && SetCount(f) != 1
    case BadWait(_) => exists f :: f in s.factors && f.wait == Some(Unparseable)
    case Unsatisfiable(_, available) => s.threshold > available && available == Available(s.factors)
    case _ => false
  }

  method BuildAuthority(s: AuthoritySpec) returns (r: Result<Authority, AuthorityError>)
    ensures r.Ok? <==> Acceptable(s)
    ensures r.Ok? ==> Builds(s, r.value) && WellBuilt(r.value)
    ensures r.Err? ==> Blames(s, r.error)
  {
    if s.id == "" { return Err(EmptyId); }
    if s.threshold == 0 { return Err(ZeroThreshold(s.id)); }
    if s.factors == [] { return Err(NoFactors(s.id)); }
    var factors: seq<WeightedFactor> := [];
    var available := 0;
    for k := 0 to |s.factors|
      invariant |factors| == k
      invariant available == Total(factors) == Available(s.factors[..k])
      invariant forall i :: 0 <= i < k ==>
                  && FactorAcceptable(s.factors[i])
                  && factors[i] == WeightedFactor(s.factors[i].weight, FactorOf(s.factors[i]))
    {
      var f := s.factors[k];
      assert s.factors[..k + 1][..k] == s.factors[..k];
      if f.weight == 0 { return Err(ZeroWeight(s.id)); }
      if SetCount(f) != 1 { return Err(BadFactor(s.id)); }
      if f.wait == Some(Unparseable) { return Err(BadWait(s.id)); }
      var built := WeightedFactor(f.weight, FactorOf(f));
      TotalSplit(factors, [built]);
      available := available + f.weight;
      factors := factors + [built];
    }
    assert s.factors[..|s.factors|] == s.factors;
    if s.threshold > available { return Err(Unsatisfiable(s.id, available)); }
    r := Ok(Authority(s.threshold, factors));
  }

  ghost predicate Distinct(specs: seq<AuthoritySpec>) {
    DistinctFirst(specs, |specs|)
  }

  ghost predicate DistinctFirst(specs: seq<AuthoritySpec>, n: nat)
    requires n <= |specs|
  {
    forall i, j :: 0 <= i < j < n ==> specs[i].id != specs[j].id
  }

  ghost predicate BuildsAll(specs: seq<AuthoritySpec>, built: map<string, Authority>) {
    BuildsFirst(specs, |specs|, built)
  }

  ghost predicate BuildsFirst(specs: seq<AuthoritySpec>, n: nat, built: map<string, Authority>)
    requires n <= |specs|
  {
    && (forall id :: id in built ==> exists i :: 0 <= i < n && specs[i].id == id)
    && (forall i :: 0 <= i < n ==> specs[i].id in built && Builds(specs[i], built[specs[i].id]))
  }

  lemma BuildsNext(specs: seq<AuthoritySpec>, n: nat, built: map<string, Authority>, a: Authority)
    requires n < |specs| && DistinctFirst(specs, n) && BuildsFirst(specs, n, built)
    requires Builds(specs[n], a) && specs[n].id !in built
    ensures DistinctFirst(specs, n + 1)
    ensures BuildsFirst(specs, n + 1, built[specs[n].id := a])
  {
    hide Builds;
    var built' := built[specs[n].id := a];
    forall i | 0 <= i < n + 1 ensures specs[i].id in built' && Builds(specs[i], built'[specs[i].id]) {
      assert i < n ==> specs[i].id in built;
    }
    forall id | id in built' ensures exists i :: 0 <= i < n + 1 && specs[i].id == id {
      if id != specs[n].id {
        var i :| 0 <= i < n && specs[i].id == id;
      }
    }
  }

  lemma {:induction false} TotalIsAvailable(s: AuthoritySpec, a: Authority, n: nat)
    requires Builds(s, a) && n <= |s.factors|
    ensures Total(a.factors[..n]) == Available(s.factors[..n])
  {
    if n > 0 {
      TotalIsAvailable(s, a, n - 1);
      assert a.factors[..n] == a.factors[..n - 1] + [a.factors[n - 1]];
      assert s.factors[..n][..n - 1] == s.factors[..n - 1];
      TotalSplit(a.factors[..n - 1], [a.factors[n - 1]]);
    }
  }

  lemma BuiltIsWellBuilt(s: AuthoritySpec, a: Authority)
    requires Builds(s, a)
    ensures WellBuilt(a)
  {
    TotalIsAvailable(s, a, |s.factors|);
    assert a.factors[..|s.factors|] == a.factors && s.factors[..|s.factors|] == s.factors;
  }

  lemma NamespaceIsWellBuilt(specs: seq<AuthoritySpec>, built: map<string, Authority>)
    requires BuildsAll(specs, built)
    ensures forall id :: id in built ==> WellBuilt(built[id])
    ensures forall i :: 0 <= i < |specs| ==> Acceptable(specs[i])
  {
    forall id | id in built ensures WellBuilt(built[id]) {
      var i :| 0 <= i < |specs| && specs[i].id == id;
      BuiltIsWellBuilt(specs[i], built[id]);
    }
  }

  /** Builds one namespace (the groups, or the profiles). */
  method BuildNamespace(specs: seq<AuthoritySpec>) returns (r: Result<map<string, Authority>, AuthorityError>)
    ensures r.Ok? <==> Distinct(specs) && forall i :: 0 <= i < |specs| ==> Acceptable(specs[i])
    ensures r.Ok? ==> BuildsAll(specs, r.value) && forall id :: id in r.value ==> WellBuilt(r.value[id])
  {
    hide Builds, WellBuilt;
    var built: map<string, Authority> := map[];
    for n := 0 to |specs|
      invariant DistinctFirst(specs, n)
      invariant BuildsFirst(specs, n, built)
    {
      var a := BuildAuthority(specs[n]);
      if a.Err? { return Err(a.error); }
      if specs[n].id in built { return Err(Duplicate(specs[n].id)); }
      BuildsNext(specs, n, built, a.value);
      built := built[specs[n].id := a.value];
    }
    NamespaceIsWellBuilt(specs, built);
    r := Ok(built);
  }

  ghost predicate AuthenticatorsAcceptable(specs: seq<AuthenticatorSpec>) {
    && (forall i :: 0 <= i < |specs| ==> specs[i].id != "" && specs[i].usable)
    && (forall i, j :: 0 <= i < j < |specs| ==> specs[i].id != specs[j].id)
  }

  method LoadAuthenticators(specs: seq<AuthenticatorSpec>) returns (r: Result<set<string>, AuthorityError>)
    ensures r.Ok? <==> AuthenticatorsAcceptable(specs)
    ensures r.Ok? ==> r.value == (set i | 0 <= i < |specs| :: specs[i].id)
  {
    var ids: set<string> := {};
    for k := 0 to |specs|
      invariant AuthenticatorsAcceptable(specs[..k])
      invariant ids == set i | 0 <= i < k :: specs[i].id
    {
      var a := specs[k];
      if a.id == "" { return Err(EmptyId); }
      if !a.usable { return Err(UnusableMaterial(a.id)); }
      if a.id in ids { return Err(Duplicate(a.id)); }
      ids := ids + {a.id};
    }
    assert specs[..|specs|] == specs;
    r := Ok(ids);
  }

  method CheckRefs(m: Model, a: Authority) returns (r: Result<(), AuthorityError>)
    ensures r.Ok? <==> Resolves(m, a)
  {
    for k := 0 to |a.factors|
      invariant Resolves(m, Authority(a.threshold, a.factors[..k]))
    {
      match a.factors[k].factor {
        case Authenticator(id) =>
          if id !in m.authenticators { return Err(Dangling(id)); }
        case Group(id) =>
          if id !in m.groups { return Err(Dangling(id)); }
        case Wait(_) =>
      }
    }
    assert a.factors[..|a.factors|] == a.factors;
    r := Ok(());
  }

  method CheckAllRefs(m: Model, authorities: map<string, Authority>) returns (r: Result<(), AuthorityError>)
    ensures r.Ok? <==> forall id :: id in authorities ==> Resolves(m, authorities[id])
  {
    var todo := authorities.Keys;
    while todo != {}
      invariant todo <= authorities.Keys
      invariant forall id :: id in authorities && id !in todo ==> Resolves(m, authorities[id])
      decreases todo
    {
      var id :| id in todo;
      todo := todo - {id};
      var ok := CheckRefs(m, authorities[id]);
      if ok.Err? { return ok; }
    }
    r := Ok(());
  }

  /** `m` is the model the configuration describes. */
  ghost predicate Describes(spec: ApprovalSpec, m: Model) {
    && AuthenticatorsAcceptable(spec.authenticators)
    && m.authenticators == (set i | 0 <= i < |spec.authenticators| :: spec.authenticators[i].id)
    && Distinct(spec.groups) && BuildsAll(spec.groups, m.groups)
    && Distinct(spec.profiles) && BuildsAll(spec.profiles, m.profiles)
    && m.profiles != map[]
  }

  ghost predicate ReferencesResolve(m: Model) {
    && (forall id :: id in m.groups ==> Resolves(m, m.groups[id]))
    && (forall id :: id in m.profiles ==> Resolves(m, m.profiles[id]))
  }

  /** Two models described by the same configuration are the same. */
  lemma DescribesUnique(spec: ApprovalSpec, m: Model, m': Model)
    requires Describes(spec, m) && Describes(spec, m')
    ensures m == m'
  {
    NamespaceUnique(spec.groups, m.groups, m'.groups);
    NamespaceUnique(spec.profiles, m.profiles, m'.profiles);
  }

  lemma BuildsOne(s: AuthoritySpec, a: Authority, b: Authority)
    requires Builds(s, a) && Builds(s, b)
    ensures a == b
  {
    hide Acceptable, Says;
    forall k | 0 <= k < |s.factors| ensures a.factors[k] == b.factors[k] {
      SaysOne(s.factors[k], a.factors[k].factor, b.factors[k].factor);
    }
    assert a.factors == b.factors;
  }

  lemma SaysOne(f: FactorSpec, x: Factor, y: Factor)
    requires Says(f, x) && Says(f, y)
    ensures x == y
  {
  }

  lemma NamespaceUnique(specs: seq<AuthoritySpec>, a: map<string, Authority>, b: map<string, Authority>)
    requires BuildsAll(specs, a) && BuildsAll(specs, b)
    ensures a == b
  {
    hide Builds;
    assert a.Keys == b.Keys;
    forall id | id in a ensures a[id] == b[id] {
      var i :| 0 <= i < |specs| && specs[i].id == id;
      BuildsOne(specs[i], a[id], b[id]);
    }
  }

  lemma ResolvedIsClosed(m: Model)
    requires ReferencesResolve(m)
    ensures Closed(m.groups)
  {
    forall n, c | Edge(m.groups, n, c) ensures c in m.groups {
      assert Resolves(m, m.groups[n]);
    }
  }

  /** Loads a policy: accepted exactly when it is well shaped, resolved and acyclic. */
  method FromSpec(spec: ApprovalSpec) returns (r: Result<Model, AuthorityError>)
    ensures r.Ok? <==> exists m :: Describes(spec, m) && ReferencesResolve(m) && Acyclic(m.groups)
    ensures r.Ok? ==> Describes(spec, r.value) && Validated(r.value)
    ensures r.Ok? ==> forall id :: id in r.value.profiles ==>
              WellBuilt(r.value.profiles[id]) && Resolves(r.value, r.value.profiles[id])
  {
    var authenticators := LoadAuthenticators(spec.authenticators);
    if authenticators.Err? { return Err(authenticators.error); }
    var groups := BuildNamespace(spec.groups);
    if groups.Err? { return Err(groups.error); }
    var profiles := BuildNamespace(spec.profiles);
    if profiles.Err? { return Err(profiles.error); }
    if profiles.value == map[] {
      forall m | Describes(spec, m) ensures false {
        NamespaceUnique(spec.profiles, m.profiles, profiles.value);
      }
      return Err(NoProfiles);
    }
    var m := Model(authenticators.value, groups.value, profiles.value);
    assert Describes(spec, m);
    forall m' | Describes(spec, m') ensures m' == m {
      DescribesUnique(spec, m', m);
    }
    var groupRefs := CheckAllRefs(m, m.groups);
    if groupRefs.Err? { return Err(groupRefs.error); }
    var profileRefs := CheckAllRefs(m, m.profiles);
    if profileRefs.Err? { return Err(profileRefs.error); }
    ResolvedIsClosed(m);
    var acyclic, order := CheckGroupAcyclic(m.groups);
    if acyclic.Err? { return Err(GroupCycle(acyclic.error)); }
    r := Ok(m);
  }

  /** Resolves a per-host override against an accepted model. */
  method ResolveOverride(m: Model, s: AuthoritySpec) returns (r: Result<Authority, AuthorityError>)
    ensures r.Ok? ==> Builds(s, r.value) && WellBuilt(r.value) && Resolves(m, r.value)
    ensures r.Ok? <==> exists a :: Builds(s, a) && Resolves(m, a)
  {
    hide WellBuilt, Resolves;
    var a := BuildAuthority(s);
    if a.Err? { return a; }
    forall b | Builds(s, b) ensures b == a.value {
      BuildsOne(s, b, a.value);
    }
    var refs := CheckRefs(m, a.value);
    if refs.Err? { return Err(refs.error); }
    r := a;
  }
}
