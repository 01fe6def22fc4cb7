/**
  Authorization: a policy per intent under a case-folded key, one strategy per kind of
  requirement, and the set-up that installs only the strategies some policy needs.
 */
module Authorization {
  import opened Wrappers

  /** What a policy can give for an identifier: a switch, or a text. */
  datatype Requirement = Switch(on: bool) | Text(value: string)

  datatype Policy = Policy(
    roles: Option<seq<string>>, permissions: Option<seq<string>>,
    userId: Option<Requirement>, tenantId: Option<Requirement>)

  datatype Identity = Identity(
    roles: Option<seq<string>>, permissions: Option<seq<string>>, userId: Option<string>, tenantId: Option<string>)

  datatype AuthError = Unauthorized(intent: string, detail: string) | Forbidden(intent: string, detail: string)

  datatype Entry = Entry(intent: string, policy: Policy)

  /**
    What the runtime provides: lower case, the syntax check of GUIDs, and which of the values
    a policy can give `Guards.isNullOrEmpty` takes for empty; nothing is assumed of any of them.
   */
  datatype Runtime = Runtime(lower: string -> string, isGuid: string -> bool, isBlank: Requirement -> bool)

  type PolicyMap = map<string, Policy>

  // ---- The registry ---------------------------------------------------------------------

  function KeyOf(rt: Runtime, intent: string): string {
    "policy:" + rt.lower(intent)
  }

  class PolicyRegistry {
    const rt: Runtime
    var cache: PolicyMap

    constructor (rt: Runtime)
      ensures this.rt == rt && cache == map[]
    {
      this.rt, cache := rt, map[];
    }

    method AddPolicy(intent: string, policy: Policy)
      modifies this
      ensures cache == old(cache)[KeyOf(rt, intent) := policy]
      ensures Lookup(rt, cache, intent) == Some(policy)
      ensures forall other :: rt.lower(other) != rt.lower(intent) ==>
        Lookup(rt, cache, other) == Lookup(rt, old(cache), other)
    {
      forall other | rt.lower(other) != rt.lower(intent)
        ensures KeyOf(rt, other) != KeyOf(rt, intent)
      {
        KeysAgree(rt, other, intent);
      }
      var key := KeyOf(rt, intent);
      cache := cache[key := policy];
    }

    method GetPolicy(intent: string) returns (found: Option<Policy>)
      ensures found == Lookup(rt, cache, intent)
    {
      var key := KeyOf(rt, intent);
      found := if key in cache then Some(cache[key]) else None;
    }
  }

  function Lookup(rt: Runtime, cache: PolicyMap, intent: string): Option<Policy> {
    if KeyOf(rt, intent) in cache then Some(cache[KeyOf(rt, intent)]) else None
  }

  /** The registry after the entries of the policy table, each under its intent in lower case. */
  function RegistryOf(rt: Runtime, entries: seq<Entry>): PolicyMap {
    if entries == [] then map[]
    else
      var last := entries[|entries| - 1];
      RegistryOf(rt, entries[..|entries| - 1])[KeyOf(rt, rt.lower(last.intent)) := last.policy]
  }

  predicate Concerns(rt: Runtime, e: Entry, intent: string) {
    rt.lower(rt.lower(e.intent)) == rt.lower(intent)
  }

  lemma KeysAgree(rt: Runtime, a: string, b: string)
    ensures KeyOf(rt, a) == KeyOf(rt, b) <==> rt.lower(a) == rt.lower(b)
  {
    var n := |"policy:"|;
    assert rt.lower(a) == KeyOf(rt, a)[n..] && rt.lower(b) == KeyOf(rt, b)[n..];
  }

  /** Of the entries whose intents differ only in case, the last one counts. */
  lemma {:induction false} LastEntryCounts(rt: Runtime, entries: seq<Entry>, intent: string, i: nat)
    requires i < |entries| && Concerns(rt, entries[i], intent)
    requires forall j :: i < j < |entries| ==> !Concerns(rt, entries[j], intent)
    ensures Lookup(rt, RegistryOf(rt, entries), intent) == Some(entries[i].policy)
    decreases |entries|
  {
    var last := entries[|entries| - 1];
    KeysAgree(rt, rt.lower(last.intent), intent);
    if i < |entries| - 1 {
      assert !Concerns(rt, last, intent);
      LastEntryCounts(rt, entries[..|entries| - 1], intent, i);
    }
  }

  lemma {:induction false} NoEntryNoPolicy(rt: Runtime, entries: seq<Entry>, intent: string)
    requires forall j :: 0 <= j < |entries| ==> !Concerns(rt, entries[j], intent)
    ensures Lookup(rt, RegistryOf(rt, entries), intent) == None
    decreases |entries|
  {
    if entries != [] {
      var last := entries[|entries| - 1];
      assert !Concerns(rt, last, intent);
      KeysAgree(rt, rt.lower(last.intent), intent);
      NoEntryNoPolicy(rt, entries[..|entries| - 1], intent);
    }
  }

  predicate IsFor(rt: Runtime, e: Entry, key: string, policy: Policy) {
    KeyOf(rt, rt.lower(e.intent)) == key && e.policy == policy
  }

  lemma {:induction false} PolicyIsAnEntry(rt: Runtime, entries: seq<Entry>, key: string)
    requires key in RegistryOf(rt, entries)
    ensures exists i :: 0 <= i < |entries| && IsFor(rt, entries[i], key, RegistryOf(rt, entries)[key])
    decreases |entries|
  {
    var last := entries[|entries| - 1];
    if KeyOf(rt, rt.lower(last.intent)) == key {
      assert IsFor(rt, last, key, RegistryOf(rt, entries)[key]);
    } else {
      var init := entries[..|entries| - 1];
      PolicyIsAnEntry(rt, init, key);
      var i :| 0 <= i < |init| && IsFor(rt, init[i], key, RegistryOf(rt, init)[key]);
      assert init[i] == entries[i];
    }
  }

  // ---- The strategies -------------------------------------------------------------------

  type Check = (string, Option<Identity>) -> Option<AuthError>

  datatype Strategy = RoleStrategy | PermissionStrategy | UserStrategy | TenantStrategy | CustomStrategy(check: Check)

  predicate Filled(list: Option<seq<string>>) {
    list.Some? && list.value != []
  }

  predicate NonEmpty(s: Option<string>) {
    s.Some? && s.value != ""
  }

  predicate Present(rt: Runtime, r: Option<Requirement>) {
    r.Some? && !rt.isBlank(r.value)
  }

  predicate SharesOne(required: seq<string>, owned: Option<seq<string>>) {
    exists x :: x in required && x in (if owned.Some? then owned.value else [])
  }

  predicate ValidId(rt: Runtime, id: Option<string>) {
    NonEmpty(id) && rt.isGuid(id.value)
  }

  const NO_USER := "User is not authenticated."
  const NO_TENANT := "Tenant is not authenticated."
  const NO_ROLE := "User does not have the required roles."
  const NO_PERMISSION := "User does not have the required permissions."

  /** `performAuthorizationCheck` of the four strategies. */
  function Perform(rt: Runtime, s: Strategy, policy: Option<Policy>, intent: string, id: Identity): Option<AuthError>
    requires !s.CustomStrategy?
  {
    if policy.None? then None
    else
      var p := policy.value;
      match s
      case RoleStrategy =>
        if Filled(p.roles) && !SharesOne(p.roles.value, id.roles) then Some(Forbidden(intent, NO_ROLE)) else None
      case PermissionStrategy =>
        if Filled(p.permissions) && !SharesOne(p.permissions.value, id.permissions) then
          Some(Forbidden(intent, NO_PERMISSION))
        else None
      case UserStrategy =>
        if p.userId.Some? && !ValidId(rt, id.userId) then Some(Unauthorized(intent, NO_USER)) else None
      case TenantStrategy =>
        if p.tenantId.Some? && !ValidId(rt, id.tenantId) then Some(Unauthorized(intent, NO_TENANT)) else None
  }

  function Execute(rt: Runtime, s: Strategy, cache: PolicyMap, intent: string, context: Option<Identity>)
    : Option<AuthError>
  {
    if s.CustomStrategy? then s.check(intent, context)
    else if context.None? then Some(Unauthorized(intent, NO_USER))
    else Perform(rt, s, Lookup(rt, cache, intent), intent, context.value)
  }

  /** `AuthorizationPipeline.handle`: the first failure, or `None` where `next()` is called. */
  function Decide(rt: Runtime, ss: seq<Strategy>, cache: PolicyMap, intent: string, context: Option<Identity>)
    : Option<AuthError>
    decreases |ss|
  {
    if ss == [] then None
    else
      var result := Execute(rt, ss[0], cache, intent, context);
      if result.Some? then result else Decide(rt, ss[1..], cache, intent, context)
  }

  /** The decision is the error of the first strategy that fails, and success if none does. */
  lemma {:induction false} FirstFailureWins(
    rt: Runtime, ss: seq<Strategy>, cache: PolicyMap, intent: string, context: Option<Identity>, i: nat)
    requires i <= |ss|
    requires forall j :: 0 <= j < i ==> Execute(rt, ss[j], cache, intent, context) == None
    requires i < |ss| ==> Execute(rt, ss[i], cache, intent, context).Some?
    ensures Decide(rt, ss, cache, intent, context) ==
      if i < |ss| then Execute(rt, ss[i], cache, intent, context) else None
    decreases |ss|
  {
    if i > 0 {
      assert forall j :: 0 <= j < i - 1 ==> ss[1..][j] == ss[j + 1];
      FirstFailureWins(rt, ss[1..], cache, intent, context, i - 1);
    }
  }

  /** One strategy of the pipeline; the four look their policy up in the registry. */
  method ExecuteStrategy(registry: PolicyRegistry, s: Strategy, intent: string, context: Option<Identity>)
    returns (result: Option<AuthError>)
    ensures result == Execute(registry.rt, s, registry.cache, intent, context)
  {
    if s.CustomStrategy? {
      return s.check(intent, context);
    }
    if context.None? {
      return Some(Unauthorized(intent, NO_USER));
    }
    var policy := registry.GetPolicy(intent);
    result := Perform(registry.rt, s, policy, intent, context.value);
  }

  /** The pipeline's loop: the first failure is returned at once, and nothing if every strategy passes. */
  method Handle(registry: PolicyRegistry, strategies: seq<Strategy>, intent: string, context: Option<Identity>)
    returns (decision: Option<AuthError>)
    ensures decision == Decide(registry.rt, strategies, registry.cache, intent, context)
    ensures decision == None <==>
      forall s :: s in strategies ==> Execute(registry.rt, s, registry.cache, intent, context) == None
  {
    var i := 0;
    assert strategies[0..] == strategies;
    while i < |strategies|
      invariant 0 <= i <= |strategies|
      invariant Decide(registry.rt, strategies, registry.cache, intent, context) ==
        Decide(registry.rt, strategies[i..], registry.cache, intent, context)
      invariant forall j :: 0 <= j < i ==>
        Execute(registry.rt, strategies[j], registry.cache, intent, context) == None
    {
      assert strategies[i..][0] == strategies[i] && strategies[i..][1..] == strategies[i + 1..];
      decision := ExecuteStrategy(registry, strategies[i], intent, context);
      if decision.Some? {
        assert strategies[i] in strategies;
        return;
      }
      i := i + 1;
    }
    decision := None;
  }

  lemma {:induction false} DecideOver(
    rt: Runtime, a: seq<Strategy>, b: seq<Strategy>, cache: PolicyMap, intent: string, context: Option<Identity>)
    ensures Decide(rt, a + b, cache, intent, context) ==
      var first := Decide(rt, a, cache, intent, context);
      if first.Some? then first else Decide(rt, b, cache, intent, context)
    decreases |a|
  {
    if a == [] {
      assert a + b == b;
    } else {
      assert (a + b)[1..] == a[1..] + b;
      DecideOver(rt, a[1..], b, cache, intent, context);
    }
  }

  // ---- Installing strategies --------------------------------------------------------------

  const ALL: seq<Strategy> := [RoleStrategy, PermissionStrategy, UserStrategy, TenantStrategy]

  /** Whether a policy asks for a strategy. */
  predicate Asks(rt: Runtime, p: Policy, s: Strategy) {
    match s
    case RoleStrategy => Filled(p.roles)
    case PermissionStrategy => Filled(p.permissions)
    case UserStrategy => Present(rt, p.userId)
    case TenantStrategy => Present(rt, p.tenantId)
    case CustomStrategy(_) => false
  }

  predicate Needed(rt: Runtime, entries: seq<Entry>, s: Strategy) {
    exists i :: 0 <= i < |entries| && Asks(rt, entries[i].policy, s)
  }

  function Kept(rt: Runtime, entries: seq<Entry>, ss: seq<Strategy>): seq<Strategy>
    decreases |ss|
  {
    if ss == [] then []
    else (if Needed(rt, entries, ss[0]) then [ss[0]] else []) + Kept(rt, entries, ss[1..])
  }

  /** Of the four strategies, in their order, those that some entry asks for. */
  function Installed(rt: Runtime, entries: seq<Entry>): seq<Strategy> {
    Kept(rt, entries, ALL)
  }

  /** The place of a strategy in the fixed order. */
  function Rank(s: Strategy): nat {
    match s
    case RoleStrategy => 0
    case PermissionStrategy => 1
    case UserStrategy => 2
    case TenantStrategy => 3
    case CustomStrategy(_) => 4
  }

  function KindOf(s: Strategy): string {
    match s
    case RoleStrategy => "roles"
    case PermissionStrategy => "permissions"
    case UserStrategy => "userId"
    case TenantStrategy => "tenantId"
    case CustomStrategy(_) => ""
  }

  /** The kinds of requirement one policy has are added to those seen so far. */
  method NoteKinds(rt: Runtime, policy: Policy, seen: set<string>) returns (policies: set<string>)
    ensures forall s :: s in ALL ==> (KindOf(s) in policies <==> KindOf(s) in seen || Asks(rt, policy, s))
  {
    policies := seen;
    if Filled(policy.roles) {
      policies := policies + {"roles"};
    }
    if Filled(policy.permissions) {
      policies := policies + {"permissions"};
    }
    if Present(rt, policy.userId) {
      policies := policies + {"userId"};
    }
    if Present(rt, policy.tenantId) {
      policies := policies + {"tenantId"};
    }
  }

  /** The loop of `addAuthZ` over the policy table. */
  method CollectPolicies(rt: Runtime, entries: seq<Entry>) returns (registry: PolicyRegistry, policies: set<string>)
    ensures fresh(registry) && registry.rt == rt && registry.cache == RegistryOf(rt, entries)
    ensures forall s :: s in ALL ==> (KindOf(s) in policies <==> Needed(rt, entries, s))
  {
    registry := new PolicyRegistry(rt);
    policies := {};
    var i := 0;
    assert entries[..0] == [];
    while i < |entries|
      invariant 0 <= i <= |entries| && fresh(registry) && registry.rt == rt
      invariant registry.cache == RegistryOf(rt, entries[..i])
      invariant forall s :: s in ALL ==> (KindOf(s) in policies <==> Needed(rt, entries[..i], s))
    {
      var policy := entries[i].policy;
      NeededSnoc(rt, entries, i);
      registry.AddPolicy(rt.lower(entries[i].intent), policy);
      assert entries[..i + 1][..i] == entries[..i];
      policies := NoteKinds(rt, policy, policies);
      i := i + 1;
    }
    assert entries[..|entries|] == entries;
  }

  /** The strategies of the kinds that were found, in the fixed order. */
  method ListStrategies(policies: set<string>) returns (strategies: seq<Strategy>)
    ensures forall s :: s in strategies <==> s in ALL && KindOf(s) in policies
    ensures InOrder(strategies)
  {
    strategies := [];
    if "roles" in policies {
      strategies := strategies + [RoleStrategy];
    }
    if "permissions" in policies {
      strategies := strategies + [PermissionStrategy];
    }
    if "userId" in policies {
      strategies := strategies + [UserStrategy];
    }
    if "tenantId" in policies {
      strategies := strategies + [TenantStrategy];
    }
  }

  /** `addAuthZ` with a policy table: fills the registry and lists the strategies. */
  method AddAuthZ(rt: Runtime, entries: seq<Entry>, custom: seq<Strategy>)
    returns (registry: PolicyRegistry, strategies: seq<Strategy>)
    ensures fresh(registry) && registry.rt == rt && registry.cache == RegistryOf(rt, entries)
    ensures strategies == Installed(rt, entries) + custom
  {
    var policies;
    registry, policies := CollectPolicies(rt, entries);
    assert KindOf(RoleStrategy) in policies <==> Needed(rt, entries, RoleStrategy);
    assert KindOf(PermissionStrategy) in policies <==> Needed(rt, entries, PermissionStrategy);
    assert KindOf(UserStrategy) in policies <==> Needed(rt, entries, UserStrategy);
    assert KindOf(TenantStrategy) in policies <==> Needed(rt, entries, TenantStrategy);
    strategies := ListStrategies(policies);
    KeptAreNeeded(rt, entries, ALL);
    SameRanks(strategies, Installed(rt, entries));
    strategies := strategies + custom;
  }

  lemma NeededSnoc(rt: Runtime, entries: seq<Entry>, i: nat)
    requires i < |entries|
    ensures forall s ::
      Needed(rt, entries[..i + 1], s) <==> Needed(rt, entries[..i], s) || Asks(rt, entries[i].policy, s)
  {
    forall s
      ensures Needed(rt, entries[..i + 1], s) <==> Needed(rt, entries[..i], s) || Asks(rt, entries[i].policy, s)
    {
      var before, after := entries[..i], entries[..i + 1];
      assert after[i] == entries[i];
      if k: int :| 0 <= k < |before| && Asks(rt, before[k].policy, s) {
        assert after[k] == before[k];
      }
      if k: int :| 0 <= k < |after| && Asks(rt, after[k].policy, s) {
        assert k < i ==> before[k] == after[k];
      }
    }
  }

  function When(c: bool, s: Strategy): seq<Strategy> {
    if c then [s] else []
  }

  lemma {:induction false} KeptAreNeeded(rt: Runtime, entries: seq<Entry>, ss: seq<Strategy>)
    requires InOrder(ss)
    ensures forall s :: s in Kept(rt, entries, ss) <==> s in ss && Needed(rt, entries, s)
    ensures InOrder(Kept(rt, entries, ss))
    decreases |ss|
  {
    if ss != [] {
      KeptAreNeeded(rt, entries, ss[1..]);
      assert ss == [ss[0]] + ss[1..];
      var rest := Kept(rt, entries, ss[1..]);
      forall j | 0 <= j < |rest|
        ensures Rank(ss[0]) < Rank(rest[j])
      {
        assert rest[j] in ss[1..];
        var k :| 0 <= k < |ss[1..]| && ss[1..][k] == rest[j];
        assert rest[j] == ss[k + 1];
      }
    }
  }

  ghost predicate InOrder(ss: seq<Strategy>) {
    forall i, j :: 0 <= i < j < |ss| ==> Rank(ss[i]) < Rank(ss[j])
  }

  ghost predicate SameStrategies(a: seq<Strategy>, b: seq<Strategy>) {
    forall s :: s in a <==> s in b
  }

  lemma BothEmpty(a: seq<Strategy>, b: seq<Strategy>)
    requires SameStrategies(a, b)
    ensures a == [] <==> b == []
  {
    if a != [] {
      assert a[0] in a;
    }
    if b != [] {
      assert b[0] in b;
    }
  }

  lemma HeadsAgree(a: seq<Strategy>, b: seq<Strategy>)
    requires SameStrategies(a, b) && InOrder(a) && InOrder(b) && a != [] && b != []
    ensures a[0] == b[0]
  {
    assert a[0] in a && b[0] in b;
    var i :| 0 <= i < |a| && a[i] == b[0];
    var j :| 0 <= j < |b| && b[j] == a[0];
  }

  lemma TailsAgree(a: seq<Strategy>, b: seq<Strategy>, s: Strategy)
    requires SameStrategies(a, b) && InOrder(a) && InOrder(b) && a != [] && b != [] && a[0] == b[0]
    requires s in a[1..]
    ensures s in b[1..]
  {
    var i :| 0 < i < |a| && a[i] == s;
    assert s in a && Rank(a[0]) < Rank(s);
    var j :| 0 <= j < |b| && b[j] == s;
    assert b[1..][j - 1] == s;
  }

  /** A list in the fixed order is determined by its members. */
  lemma {:induction false} SameRanks(a: seq<Strategy>, b: seq<Strategy>)
    requires SameStrategies(a, b) && InOrder(a) && InOrder(b)
    ensures a == b
    decreases |a|
  {
    BothEmpty(a, b);
    if a != [] {
      HeadsAgree(a, b);
      forall s
        ensures s in a[1..] <==> s in b[1..]
      {
        if s in a[1..] {
          TailsAgree(a, b, s);
        } else if s in b[1..] {
          TailsAgree(b, a, s);
        }
      }
      SameRanks(a[1..], b[1..]);
      assert a == [a[0]] + a[1..] && b == [b[0]] + b[1..];
    }
  }

  // ---- What leaving strategies out changes ------------------------------------------------

  /** Some policy in force gives the field a value that counts as empty, and no entry gives it another one. */
  ghost predicate Overlooked(rt: Runtime, entries: seq<Entry>, s: Strategy) {
    && !Needed(rt, entries, s)
    && exists key :: key in RegistryOf(rt, entries) && GivesBlank(rt, RegistryOf(rt, entries)[key], s)
  }

  predicate GivesBlank(rt: Runtime, p: Policy, s: Strategy) {
    || (s.UserStrategy? && p.userId.Some? && rt.isBlank(p.userId.value))
    || (s.TenantStrategy? && p.tenantId.Some? && rt.isBlank(p.tenantId.value))
  }

  /** A strategy that is left out and not overlooked never fails. */
  lemma {:induction false} LeftOutNeverFails(
    rt: Runtime, entries: seq<Entry>, s: Strategy, intent: string, id: Identity)
    requires s in ALL && !Needed(rt, entries, s) && !Overlooked(rt, entries, s)
    ensures Execute(rt, s, RegistryOf(rt, entries), intent, Some(id)) == None
  {
    var cache := RegistryOf(rt, entries);
    var key := KeyOf(rt, intent);
    if key in cache {
      PolicyIsAnEntry(rt, entries, key);
      var i :| 0 <= i < |entries| && IsFor(rt, entries[i], key, cache[key]);
      assert !Asks(rt, entries[i].policy, s);
      assert !GivesBlank(rt, cache[key], s);
    }
  }

  lemma {:induction false} KeptDecides(
    rt: Runtime, entries: seq<Entry>, ss: seq<Strategy>, intent: string, id: Identity)
    requires forall s :: s in ss ==> s in ALL && !Overlooked(rt, entries, s)
    ensures Decide(rt, Kept(rt, entries, ss), RegistryOf(rt, entries), intent, Some(id)) ==
      Decide(rt, ss, RegistryOf(rt, entries), intent, Some(id))
    decreases |ss|
  {
    if ss != [] {
      var cache := RegistryOf(rt, entries);
      assert ss[0] in ss && forall s :: s in ss[1..] ==> s in ss;
      KeptDecides(rt, entries, ss[1..], intent, id);
      var head := When(Needed(rt, entries, ss[0]), ss[0]);
      DecideOver(rt, head, Kept(rt, entries, ss[1..]), cache, intent, Some(id));
      if Needed(rt, entries, ss[0]) {
        assert head[1..] == [];
      } else {
        LeftOutNeverFails(rt, entries, ss[0], intent, id);
      }
    }
  }

  /**
    If no field is overlooked, the installed strategies, with any custom ones behind them,
    decide every request with a context as all four would, with the same first error.
   */
  lemma {:induction false} PruningPreserves(
    rt: Runtime, entries: seq<Entry>, custom: seq<Strategy>, intent: string, id: Identity)
    requires !Overlooked(rt, entries, UserStrategy) && !Overlooked(rt, entries, TenantStrategy)
    ensures Decide(rt, Installed(rt, entries) + custom, RegistryOf(rt, entries), intent, Some(id)) ==
      Decide(rt, ALL + custom, RegistryOf(rt, entries), intent, Some(id))
  {
    var cache := RegistryOf(rt, entries);
    KeptDecides(rt, entries, ALL, intent, id);
    DecideOver(rt, Installed(rt, entries), custom, cache, intent, Some(id));
    DecideOver(rt, ALL, custom, cache, intent, Some(id));
  }

  ghost predicate SameDecision(rt: Runtime, entries: seq<Entry>, intent: string, context: Option<Identity>) {
    Decide(rt, Installed(rt, entries), RegistryOf(rt, entries), intent, context) ==
    Decide(rt, ALL, RegistryOf(rt, entries), intent, context)
  }

  /** Someone with everything the policy asks for except the identifier that `s` looks at. */
  function Lacking(p: Policy, s: Strategy, guid: string): Identity {
    Identity(
      p.roles, p.permissions,
      if s == UserStrategy then None else Some(guid), if s == TenantStrategy then None else Some(guid))
  }

  function FirstOf(a: Option<AuthError>, b: Option<AuthError>): Option<AuthError> {
    if a.Some? then a else b
  }

  lemma {:induction false} DecideAll(rt: Runtime, cache: PolicyMap, intent: string, id: Identity)
    ensures var policy := Lookup(rt, cache, intent);
      Decide(rt, ALL, cache, intent, Some(id)) ==
        FirstOf(
          FirstOf(Perform(rt, RoleStrategy, policy, intent, id), Perform(rt, PermissionStrategy, policy, intent, id)),
          FirstOf(Perform(rt, UserStrategy, policy, intent, id), Perform(rt, TenantStrategy, policy, intent, id)))
  {
    assert ALL[1..] == [PermissionStrategy, UserStrategy, TenantStrategy];
    assert ALL[1..][1..] == [UserStrategy, TenantStrategy];
    assert ALL[1..][1..][1..] == [TenantStrategy];
    assert ALL[1..][1..][1..][1..] == [];
  }

  /** What a policy asks of an identity. */
  ghost predicate Satisfies(rt: Runtime, p: Policy, id: Identity) {
    && (p.roles.Some? && p.roles.value != [] ==> id.roles.Some? && Overlap(p.roles.value, id.roles.value))
    && (p.permissions.Some? && p.permissions.value != [] ==>
      id.permissions.Some? && Overlap(p.permissions.value, id.permissions.value))
    && (p.userId.Some? ==> id.userId.Some? && id.userId.value != "" && rt.isGuid(id.userId.value))
    && (p.tenantId.Some? ==> id.tenantId.Some? && id.tenantId.value != "" && rt.isGuid(id.tenantId.value))
  }

  ghost predicate Overlap(a: seq<string>, b: seq<string>) {
    exists i, j :: 0 <= i < |a| && 0 <= j < |b| && a[i] == b[j]
  }

  lemma SharingIsOverlap(required: seq<string>, owned: Option<seq<string>>)
    ensures SharesOne(required, owned) <==> owned.Some? && Overlap(required, owned.value)
  {
    if owned.Some? && Overlap(required, owned.value) {
      var i, j :| 0 <= i < |required| && 0 <= j < |owned.value| && required[i] == owned.value[j];
      assert required[i] in required && required[i] in owned.value;
    }
  }

  /** With nothing overlooked, a request with a context passes exactly if its identity satisfies the policy in force. */
  lemma {:induction false} AdmitsExactly(rt: Runtime, entries: seq<Entry>, intent: string, id: Identity)
    requires !Overlooked(rt, entries, UserStrategy) && !Overlooked(rt, entries, TenantStrategy)
    ensures var policy := Lookup(rt, RegistryOf(rt, entries), intent);
      Decide(rt, Installed(rt, entries), RegistryOf(rt, entries), intent, Some(id)) == None <==>
        policy.None? || Satisfies(rt, policy.value, id)
  {
    var cache := RegistryOf(rt, entries);
    KeptDecides(rt, entries, ALL, intent, id);
    DecideAll(rt, cache, intent, id);
    var policy := Lookup(rt, cache, intent);
    if policy.Some? {
      AllPassIffSatisfied(rt, policy.value, intent, id);
    }
  }

  lemma AllPassIffSatisfied(rt: Runtime, p: Policy, intent: string, id: Identity)
    ensures Satisfies(rt, p, id) <==> forall s :: s in ALL ==> Perform(rt, s, Some(p), intent, id) == None
  {
    assert RoleStrategy in ALL && PermissionStrategy in ALL && UserStrategy in ALL && TenantStrategy in ALL;
    if p.roles.Some? {
      SharingIsOverlap(p.roles.value, id.roles);
    }
    if p.permissions.Some? {
      SharingIsOverlap(p.permissions.value, id.permissions);
    }
  }

  ghost predicate MissesAll(required: Option<seq<string>>, owned: Option<seq<string>>) {
    required.Some? && required.value != [] && !(owned.Some? && Overlap(required.value, owned.value))
  }

  ghost predicate MissesId(rt: Runtime, required: Option<Requirement>, id: Option<string>) {
    required.Some? && !(id.Some? && id.value != "" && rt.isGuid(id.value))
  }

  /**
    Which error a request with a context gets, with nothing overlooked: missing roles before
    missing permissions, both forbidden, then a missing user id before a missing tenant id,
    both unauthorized.
   */
  lemma {:induction false} ErrorsByRank(rt: Runtime, entries: seq<Entry>, intent: string, id: Identity)
    requires !Overlooked(rt, entries, UserStrategy) && !Overlooked(rt, entries, TenantStrategy)
    requires Lookup(rt, RegistryOf(rt, entries), intent).Some?
    ensures var p := Lookup(rt, RegistryOf(rt, entries), intent).value;
      Decide(rt, Installed(rt, entries), RegistryOf(rt, entries), intent, Some(id)) ==
        if MissesAll(p.roles, id.roles) then
          Some(Forbidden(intent, "User does not have the required roles."))
        else if MissesAll(p.permissions, id.permissions) then
          Some(Forbidden(intent, "User does not have the required permissions."))
        else if MissesId(rt, p.userId, id.userId) then Some(Unauthorized(intent, "User is not authenticated."))
        else if MissesId(rt, p.tenantId, id.tenantId) then Some(Unauthorized(intent, "Tenant is not authenticated."))
        else None
  {
    var p := Lookup(rt, RegistryOf(rt, entries), intent).value;
    KeptDecides(rt, entries, ALL, intent, id);
    DecideAll(rt, RegistryOf(rt, entries), intent, id);
    if p.roles.Some? {
      SharingIsOverlap(p.roles.value, id.roles);
    }
    if p.permissions.Some? {
      SharingIsOverlap(p.permissions.value, id.permissions);
    }
  }

  /** Whoever lacks an overlooked identifier is refused by all four and not by the installed ones. */
  lemma OverlookedShows(rt: Runtime, entries: seq<Entry>, s: Strategy, guid: string)
    returns (intent: string, id: Identity)
    requires (s == UserStrategy || s == TenantStrategy) && Overlooked(rt, entries, s)
    requires guid != "" && rt.isGuid(guid)
    ensures !SameDecision(rt, entries, intent, Some(id))
  {
    var cache := RegistryOf(rt, entries);
    var key :| key in cache && GivesBlank(rt, cache[key], s);
    PolicyIsAnEntry(rt, entries, key);
    var i :| 0 <= i < |entries| && IsFor(rt, entries[i], key, cache[key]);
    intent, id := rt.lower(entries[i].intent), Lacking(cache[key], s, guid);
    assert Lookup(rt, cache, intent) == Some(cache[key]);
    LackingFails(rt, cache[key], s, intent, guid);
    DecideAll(rt, cache, intent, id);
    InstalledPasses(rt, entries, s, intent, id);
  }

  lemma LackingFails(rt: Runtime, p: Policy, s: Strategy, intent: string, guid: string)
    requires (s == UserStrategy || s == TenantStrategy) && GivesBlank(rt, p, s) && guid != "" && rt.isGuid(guid)
    ensures var id := Lacking(p, s, guid);
      forall t :: t in ALL ==> (Perform(rt, t, Some(p), intent, id).Some? <==> t == s)
  {
    var id := Lacking(p, s, guid);
    if Filled(p.roles) {
      assert p.roles.value[0] in p.roles.value;
    }
    if Filled(p.permissions) {
      assert p.permissions.value[0] in p.permissions.value;
    }
  }

  lemma {:induction false} InstalledPasses(rt: Runtime, entries: seq<Entry>, s: Strategy, intent: string, id: Identity)
    requires !Needed(rt, entries, s)
    requires forall t :: t in ALL && t != s ==> Execute(rt, t, RegistryOf(rt, entries), intent, Some(id)) == None
    ensures Decide(rt, Installed(rt, entries), RegistryOf(rt, entries), intent, Some(id)) == None
  {
    KeptPasses(rt, entries, ALL, s, intent, id);
  }

  lemma {:induction false} KeptPasses(
    rt: Runtime, entries: seq<Entry>, ss: seq<Strategy>, s: Strategy, intent: string, id: Identity)
    requires !Needed(rt, entries, s)
    requires forall t :: t in ss && t != s ==> Execute(rt, t, RegistryOf(rt, entries), intent, Some(id)) == None
    ensures Decide(rt, Kept(rt, entries, ss), RegistryOf(rt, entries), intent, Some(id)) == None
    decreases |ss|
  {
    if ss != [] {
      KeptPasses(rt, entries, ss[1..], s, intent, id);
      var head := When(Needed(rt, entries, ss[0]), ss[0]);
      DecideOver(rt, head, Kept(rt, entries, ss[1..]), RegistryOf(rt, entries), intent, Some(id));
      if Needed(rt, entries, ss[0]) {
        assert ss[0] in ss && head[1..] == [];
      }
    }
  }

  /**
    Leaving strategies out changes no decision exactly if no field is overlooked: the
    set-up tests fields for being non-empty, the user and tenant strategies for being given.
   */
  lemma PruningIsExact(rt: Runtime, entries: seq<Entry>, guid: string)
    requires guid != "" && rt.isGuid(guid)
    ensures (forall intent, id :: SameDecision(rt, entries, intent, Some(id))) <==>
      !Overlooked(rt, entries, UserStrategy) && !Overlooked(rt, entries, TenantStrategy)
  {
    if Overlooked(rt, entries, UserStrategy) {
      var intent, id := OverlookedShows(rt, entries, UserStrategy, guid);
    } else if Overlooked(rt, entries, TenantStrategy) {
      var intent, id := OverlookedShows(rt, entries, TenantStrategy, guid);
    } else {
      forall intent, id
        ensures SameDecision(rt, entries, intent, Some(id))
      {
        KeptDecides(rt, entries, ALL, intent, id);
      }
    }
  }

  /** There is a policy table for which leaving strategies out matters exactly if some value counts as empty. */
  lemma PruningCanFailIff(rt: Runtime, guid: string)
    requires guid != "" && rt.isGuid(guid)
    ensures (forall entries, intent, id :: SameDecision(rt, entries, intent, Some(id))) <==>
      forall v :: !rt.isBlank(v)
  {
    if v :| rt.isBlank(v) {
      var p := Policy(None, None, Some(v), None);
      var entries := [Entry("", p)];
      var key := KeyOf(rt, rt.lower(""));
      assert entries[..0] == [] && RegistryOf(rt, entries) == map[][key := p];
      assert key in RegistryOf(rt, entries) && GivesBlank(rt, RegistryOf(rt, entries)[key], UserStrategy);
      assert Overlooked(rt, entries, UserStrategy);
      var intent, id := OverlookedShows(rt, entries, UserStrategy, guid);
    } else {
      forall entries, intent, id
        ensures SameDecision(rt, entries, intent, Some(id))
      {
        KeptDecides(rt, entries, ALL, intent, id);
      }
    }
  }

  /**
    A policy that gives nothing but a switch for the user id.  All four strategies ask for a
    valid id whether the switch is on or off; the installed ones do unless the strategy is
    left out, which needs the switch to count as empty.
   */
  lemma {:induction false} SwitchedOffStillDemands(
    rt: Runtime, entries: seq<Entry>, on: bool, intent: string, id: Identity)
    requires Lookup(rt, RegistryOf(rt, entries), intent) == Some(Policy(None, None, Some(Switch(on)), None))
    ensures Decide(rt, ALL, RegistryOf(rt, entries), intent, Some(id)) == None <==> ValidId(rt, id.userId)
    ensures Decide(rt, Installed(rt, entries), RegistryOf(rt, entries), intent, Some(id)) == None <==>
      ValidId(rt, id.userId) || !Needed(rt, entries, UserStrategy)
    ensures !Needed(rt, entries, UserStrategy) ==> rt.isBlank(Switch(on))
  {
    var cache := RegistryOf(rt, entries);
    DecideAll(rt, cache, intent, id);
    KeptAreNeeded(rt, entries, ALL);
    FirstUserDecides(rt, Installed(rt, entries), cache, intent, id);
    PolicyIsAnEntry(rt, entries, KeyOf(rt, intent));
    var i :| 0 <= i < |entries| && IsFor(rt, entries[i], KeyOf(rt, intent), cache[KeyOf(rt, intent)]);
    assert Asks(rt, entries[i].policy, UserStrategy) ==> Needed(rt, entries, UserStrategy);
  }

  lemma {:induction false} FirstUserDecides(
    rt: Runtime, ss: seq<Strategy>, cache: PolicyMap, intent: string, id: Identity)
    requires forall s :: s in ss ==> s in ALL
    requires Lookup(rt, cache, intent).Some?
    requires var p := Lookup(rt, cache, intent).value; p.roles == None == p.permissions && p.tenantId == None
    requires Lookup(rt, cache, intent).value.userId.Some?
    ensures Decide(rt, ss, cache, intent, Some(id)) == None <==> ValidId(rt, id.userId) || UserStrategy !in ss
    decreases |ss|
  {
    if ss != [] {
      assert ss[0] in ss && forall s :: s in ss[1..] ==> s in ss;
      assert ss == [ss[0]] + ss[1..];
      FirstUserDecides(rt, ss[1..], cache, intent, id);
    }
  }

  lemma {:induction false} RefusedWithoutContext(rt: Runtime, ss: seq<Strategy>, cache: PolicyMap, intent: string)
    requires forall s :: s in ss ==> s in ALL
    ensures Decide(rt, ss, cache, intent, None) == if ss == [] then None else Some(Unauthorized(intent, NO_USER))
  {
    if ss != [] {
      assert ss[0] in ss;
    }
  }

  /** Without a context, all four refuse; the installed ones do exactly if there are any. */
  lemma {:induction false} MissingContext(rt: Runtime, entries: seq<Entry>, intent: string)
    ensures Decide(rt, ALL, RegistryOf(rt, entries), intent, None) == Some(Unauthorized(intent, NO_USER))
    ensures SameDecision(rt, entries, intent, None) <==> exists s :: s in ALL && Needed(rt, entries, s)
  {
    KeptAreNeeded(rt, entries, ALL);
    var ss := Installed(rt, entries);
    RefusedWithoutContext(rt, ALL, RegistryOf(rt, entries), intent);
    RefusedWithoutContext(rt, ss, RegistryOf(rt, entries), intent);
    SomeKeptIff(rt, entries, ALL);
  }

  lemma {:induction false} SomeKeptIff(rt: Runtime, entries: seq<Entry>, ss: seq<Strategy>)
    requires InOrder(ss)
    ensures Kept(rt, entries, ss) != [] <==> exists s :: s in ss && Needed(rt, entries, s)
  {
    KeptAreNeeded(rt, entries, ss);
    var kept := Kept(rt, entries, ss);
    if kept != [] {
      assert kept[0] in kept;
    }
  }
}
