/** The scope registry: services in registration order, each with its scopes. */
module Registry {
  import opened Wrappers
  import opened ScopeKeys
  import opened Declarations

  datatype RegisteredService = RegisteredService(manifest: ServiceManifest, scopes: seq<ScopeSpec>) {
    predicate OwnsKey(key: ScopeKey) {
      key in Keys(scopes)
    }

    function PushScope(spec: ScopeSpec): RegisteredService {
      this.(scopes := scopes + [spec])
    }
  }

  datatype RegistryState = RegistryState(version: nat, services: seq<RegisteredService>)

  datatype RegistryEvent =
    | ServiceRegistered(service: ServiceKey, labelKey: string, descriptionKey: string)
    | ScopeRegistered(key: ScopeKey, owningService: ServiceKey, labelKey: string,
                      descriptionKey: string, platformOnly: bool)

  ghost predicate DistinctServices(services: seq<RegisteredService>) {
    forall i, j :: 0 <= i < j < |services| ==> services[i].manifest.key != services[j].manifest.key
  }

  /** Unique services, unique scope keys in each, and every scope owned by its key prefix. */
  ghost predicate Consistent(services: seq<RegisteredService>) {
    && DistinctServices(services)
    && forall i :: 0 <= i < |services| ==> WellFormed(services[i].manifest.key, services[i].scopes)
  }

  /** The position of the first service with this key, or the length when there is none. */
  function IndexOf(services: seq<RegisteredService>, key: ServiceKey): (i: nat)
    ensures i <= |services|
    ensures i < |services| ==> services[i].manifest.key == key
    ensures forall j :: 0 <= j < i ==> services[j].manifest.key != key
  {
    if services == [] || services[0].manifest.key == key then 0
    else 1 + IndexOf(services[1..], key)
  }

  predicate HasService(services: seq<RegisteredService>, key: ServiceKey) {
    IndexOf(services, key) < |services|
  }

  function OwnerIndex(services: seq<RegisteredService>, key: ScopeKey): (i: nat)
    ensures i <= |services|
    ensures i < |services| ==> services[i].OwnsKey(key)
    ensures forall j :: 0 <= j < i ==> !services[j].OwnsKey(key)
  {
    if services == [] || services[0].OwnsKey(key) then 0
    else 1 + OwnerIndex(services[1..], key)
  }

  /** The key of the first service that lists this scope key. */
  function OwnerOf(services: seq<RegisteredService>, key: ScopeKey): Option<ServiceKey> {
    var i := OwnerIndex(services, key);
    if i < |services| then Some(services[i].manifest.key) else None
  }

  // ----- register_declaration -----

  function ClaimFault(
      services: seq<RegisteredService>, declaring: ServiceKey, spec: ScopeSpec): Option<DeclarationError> {
    match OwnerOf(services, spec.key)
    case Some(owner) =>
      if owner != declaring then Some(ScopeOwnedByAnotherService(spec.key, owner)) else None
    case None => None
  }

  function FirstClaimFault(
      services: seq<RegisteredService>, declaring: ServiceKey, specs: seq<ScopeSpec>): Option<DeclarationError> {
    if specs == [] then None
    else
      match ClaimFault(services, declaring, specs[0])
      case Some(fault) => Some(fault)
      case None => FirstClaimFault(services, declaring, specs[1..])
  }

  function ScopeEvent(spec: ScopeSpec, owner: ServiceKey): RegistryEvent {
    ScopeRegistered(spec.key, owner, spec.labelKey, spec.descriptionKey, spec.platformOnly)
  }

  function ServiceEvent(manifest: ServiceManifest): RegistryEvent {
    ServiceRegistered(manifest.key, manifest.labelKey, manifest.descriptionKey)
  }

  function PushAt(services: seq<RegisteredService>, i: nat, spec: ScopeSpec): (r: seq<RegisteredService>)
    requires i < |services|
    ensures forall key :: IndexOf(r, key) == IndexOf(services, key)
  {
    var r := services[i := services[i].PushScope(spec)];
    SameIndices(services, r);
    r
  }

  lemma {:induction false} SameIndices(a: seq<RegisteredService>, b: seq<RegisteredService>)
    requires |a| == |b| && forall i :: 0 <= i < |a| ==> a[i].manifest == b[i].manifest
    ensures forall key :: IndexOf(a, key) == IndexOf(b, key)
  {}

  /** Adds the specs the declaring service does not own yet, in order. */
  function RegisterScopes(services: seq<RegisteredService>, declaring: ServiceKey, specs: seq<ScopeSpec>)
    : (r: (seq<RegisteredService>, seq<RegistryEvent>))
    requires HasService(services, declaring)
    ensures forall key :: IndexOf(r.0, key) == IndexOf(services, key)
    ensures |r.0| == |services|
  {
    if specs == [] then (services, [])
    else
      var n := |specs| - 1;
      var (done, events) := RegisterScopes(services, declaring, specs[..n]);
      var i := IndexOf(done, declaring);
      if done[i].OwnsKey(specs[n].key) then (done, events)
      else (PushAt(done, i, specs[n]), events + [ScopeEvent(specs[n], declaring)])
  }

  lemma RegisterScopesStep(services: seq<RegisteredService>, declaring: ServiceKey, specs: seq<ScopeSpec>, i: nat)
    requires HasService(services, declaring) && i < |specs|
    ensures var (done, events) := RegisterScopes(services, declaring, specs[..i]);
            var at := IndexOf(done, declaring);
            RegisterScopes(services, declaring, specs[..i + 1])
            == if done[at].OwnsKey(specs[i].key) then (done, events)
               else (PushAt(done, at, specs[i]), events + [ScopeEvent(specs[i], declaring)])
  {
    assert specs[..i + 1][..i] == specs[..i];
  }

  function EnsureService(services: seq<RegisteredService>, manifest: ServiceManifest)
    : (r: (seq<RegisteredService>, seq<RegistryEvent>))
    ensures HasService(r.0, manifest.key)
  {
    if HasService(services, manifest.key) then (services, [])
    else
      assert (services + [RegisteredService(manifest, [])])[|services|].manifest.key == manifest.key;
      (services + [RegisteredService(manifest, [])], [ServiceEvent(manifest)])
  }

  function RegisterUnclaimed(services: seq<RegisteredService>, d: ScopeDeclaration)
    : (seq<RegisteredService>, seq<RegistryEvent>)
  {
    var (ensured, first) := EnsureService(services, d.manifest);
    var (all, rest) := RegisterScopes(ensured, d.manifest.key, d.scopes);
    (all, first + rest)
  }

  function Register(registry: RegistryState, d: ScopeDeclaration)
    : (RegistryState, Result<seq<RegistryEvent>, DeclarationError>)
  {
    match FirstClaimFault(registry.services, d.manifest.key, d.scopes)
    case Some(fault) => (registry, Err(fault))
    case None =>
      var (services, events) := RegisterUnclaimed(registry.services, d);
      (RegistryState(if events == [] then registry.version else registry.version + 1, services), Ok(events))
  }

  class ScopeRegistry {
    var version: nat
    var services: seq<RegisteredService>

    constructor ()
      ensures Value() == RegistryState(0, [])
    {
      version, services := 0, [];
    }

    constructor From(state: RegistryState)
      ensures Value() == state
    {
      version, services := state.version, state.services;
    }

    function Value(): RegistryState
      reads this
    {
      RegistryState(version, services)
    }

    method RegisterDeclaration(d: ScopeDeclaration) returns (r: Result<seq<RegistryEvent>, DeclarationError>)
      modifies this
      ensures (Value(), r) == Register(old(Value()), d)
    {
      var foreign := FindForeignClaim(d.manifest.key, d.scopes);
      if foreign.Some? {
        return Err(foreign.value);
      }
      var events := AddMissing(d);
      if events != [] {
        version := version + 1;
      }
      return Ok(events);
    }

    method AddMissing(d: ScopeDeclaration) returns (events: seq<RegistryEvent>)
      modifies this`services
      ensures (services, events) == RegisterUnclaimed(old(services), d)
    {
      events := [];
      if !HasService(services, d.manifest.key) {
        services := services + [RegisteredService(d.manifest, [])];
        events := [ServiceEvent(d.manifest)];
      }
      assert services == EnsureService(old(services), d.manifest).0;
      assert events == EnsureService(old(services), d.manifest).1;
      var added := AddMissingScopes(d.manifest.key, d.scopes);
      events := events + added;
    }

    /** The first loop of the registration: looks for a key that another service owns. */
    method FindForeignClaim(declaring: ServiceKey, specs: seq<ScopeSpec>) returns (fault: Option<DeclarationError>)
      ensures fault == FirstClaimFault(services, declaring, specs)
    {
      for i := 0 to |specs|
        invariant FirstClaimFault(services, declaring, specs) == FirstClaimFault(services, declaring, specs[i..])
      {
        var owner := OwnerOf(services, specs[i].key);
        assert specs[i..][1..] == specs[i + 1..];
        if owner.Some? && owner.value != declaring {
          return Some(ScopeOwnedByAnotherService(specs[i].key, owner.value));
        }
      }
      return None;
    }

    /** The second loop of the registration: pushes what the declaring service lacks. */
    method AddMissingScopes(declaring: ServiceKey, specs: seq<ScopeSpec>) returns (events: seq<RegistryEvent>)
      requires HasService(services, declaring)
      modifies this`services
      ensures (services, events) == RegisterScopes(old(services), declaring, specs)
    {
      events := [];
      for i := 0 to |specs|
        invariant (services, events) == RegisterScopes(old(services), declaring, specs[..i])
      {
        var spec := specs[i];
        var at := IndexOf(services, declaring);
        RegisterScopesStep(old(services), declaring, specs, i);
        if !services[at].OwnsKey(spec.key) {
          services := PushAt(services, at, spec);
          events := events + [ScopeEvent(spec, declaring)];
        }
      }
      assert specs[..|specs|] == specs;
    }
  }

  // ----- what registration means -----

  /** Registration is refused exactly when some declared key has another owner. */
  lemma {:induction false} RefusedIffForeign(
      services: seq<RegisteredService>, declaring: ServiceKey, specs: seq<ScopeSpec>)
    ensures FirstClaimFault(services, declaring, specs).Some? <==>
            exists i :: 0 <= i < |specs| && OwnerOf(services, specs[i].key) !in {None, Some(declaring)}
  {
    if specs != [] {
      RefusedIffForeign(services, declaring, specs[1..]);
      if ClaimFault(services, declaring, specs[0]).None? {
        assert forall i :: 0 <= i < |specs[1..]| ==> specs[1..][i] == specs[i + 1];
        if i :| 0 <= i < |specs| && OwnerOf(services, specs[i].key) !in {None, Some(declaring)} {
          assert specs[1..][i - 1] == specs[i];
        }
      }
    }
  }

  /** A refusal names the first claimed key that another service holds, and that service, and
      leaves the registry as it was. */
  lemma {:induction false} RefusalNamesTheFirst(
      services: seq<RegisteredService>, declaring: ServiceKey, specs: seq<ScopeSpec>, i: nat)
    requires i < |specs| && OwnerOf(services, specs[i].key) !in {None, Some(declaring)}
    requires forall j :: 0 <= j < i ==> OwnerOf(services, specs[j].key) in {None, Some(declaring)}
    ensures FirstClaimFault(services, declaring, specs)
            == Some(ScopeOwnedByAnotherService(specs[i].key, OwnerOf(services, specs[i].key).value))
    ensures forall registry: RegistryState, d: ScopeDeclaration ::
              registry.services == services && d.manifest.key == declaring && d.scopes == specs ==>
                Register(registry, d)
                == (registry, Err(ScopeOwnedByAnotherService(specs[i].key, OwnerOf(services, specs[i].key).value)))
  {
    if i > 0 {
      assert OwnerOf(services, specs[0].key) in {None, Some(declaring)};
      forall j | 0 <= j < i - 1
        ensures OwnerOf(services, specs[1..][j].key) in {None, Some(declaring)}
      {
        assert specs[1..][j] == specs[j + 1];
      }
      RefusalNamesTheFirst(services, declaring, specs[1..], i - 1);
    }
  }

  /** On a consistent registry a declaration is never refused. */
  lemma ConsistentNeverRefuses(registry: RegistryState, d: ScopeDeclaration)
    requires Consistent(registry.services)
    ensures Register(registry, d).1.Ok?
  {
    RefusedIffForeign(registry.services, d.manifest.key, d.scopes);
    forall i | 0 <= i < |d.scopes|
      ensures OwnerOf(registry.services, d.scopes[i].key) in {None, Some(d.manifest.key)}
    {
      var key := d.scopes[i].key;
      if OwnerOf(registry.services, key).Some? {
        OwnerIsPrefix(registry.services, OwnerIndex(registry.services, key), key);
      }
    }
  }

  lemma OwnerIsPrefix(services: seq<RegisteredService>, i: nat, key: ScopeKey)
    requires Consistent(services) && i < |services| && services[i].OwnsKey(key)
    ensures IsOwnedBy(key, services[i].manifest.key)
  {
    var j :| 0 <= j < |services[i].scopes| && services[i].scopes[j].key == key;
  }

  /** In a consistent registry a scope key occurs once: one service, one position. */
  lemma ScopeKeysUnique(services: seq<RegisteredService>, i: nat, a: nat, j: nat, b: nat)
    requires Consistent(services)
    requires i < |services| && a < |services[i].scopes|
    requires j < |services| && b < |services[j].scopes|
    requires services[i].scopes[a].key == services[j].scopes[b].key
    ensures i == j && a == b
  {
    assert IsOwnedBy(services[i].scopes[a].key, services[i].manifest.key);
    assert IsOwnedBy(services[j].scopes[b].key, services[j].manifest.key);
  }

  lemma PushKeepsConsistent(services: seq<RegisteredService>, i: nat, spec: ScopeSpec)
    requires Consistent(services) && i < |services|
    requires IsOwnedBy(spec.key, services[i].manifest.key) && !services[i].OwnsKey(spec.key)
    ensures Consistent(PushAt(services, i, spec))
  {}

  lemma {:induction false} RegisterScopesConsistent(
      services: seq<RegisteredService>, declaring: ServiceKey, specs: seq<ScopeSpec>)
    requires Consistent(services) && HasService(services, declaring) && AllOwned(declaring, specs)
    ensures Consistent(RegisterScopes(services, declaring, specs).0)
  {
    if specs != [] {
      var n := |specs| - 1;
      RegisterScopesConsistent(services, declaring, specs[..n]);
      var done := RegisterScopes(services, declaring, specs[..n]).0;
      var i := IndexOf(done, declaring);
      assert IsOwnedBy(specs[n].key, declaring);
      if !done[i].OwnsKey(specs[n].key) {
        PushKeepsConsistent(done, i, specs[n]);
      }
    }
  }

  /** The registry invariant: every registration keeps it. */
  lemma RegisterKeepsConsistent(registry: RegistryState, d: ScopeDeclaration)
    requires Consistent(registry.services)
    ensures Consistent(Register(registry, d).0.services)
  {
    var ensured := EnsureService(registry.services, d.manifest).0;
    assert Consistent(ensured) by {
      if !HasService(registry.services, d.manifest.key) {
        forall i, j | 0 <= i < j < |ensured|
          ensures ensured[i].manifest.key != ensured[j].manifest.key
        {}
      }
    }
    RegisterScopesConsistent(ensured, d.manifest.key, d.scopes);
  }

  /** `later` holds every entry of `earlier`, at the same place and with the same metadata. */
  ghost predicate Extends(earlier: seq<RegisteredService>, later: seq<RegisteredService>) {
    && |earlier| <= |later|
    && forall i :: 0 <= i < |earlier| ==>
         later[i].manifest == earlier[i].manifest && earlier[i].scopes <= later[i].scopes
  }

  lemma {:induction false} RegisterScopesExtends(
      services: seq<RegisteredService>, declaring: ServiceKey, specs: seq<ScopeSpec>)
    requires HasService(services, declaring)
    ensures Extends(services, RegisterScopes(services, declaring, specs).0)
  {
    if specs != [] {
      RegisterScopesExtends(services, declaring, specs[..|specs| - 1]);
    }
  }

  /** No registration, accepted or refused, drops or rewrites an earlier entry. */
  lemma RegisterKeepsEntries(registry: RegistryState, d: ScopeDeclaration)
    ensures Extends(registry.services, Register(registry, d).0.services)
  {
    var ensured := EnsureService(registry.services, d.manifest).0;
    RegisterScopesExtends(ensured, d.manifest.key, d.scopes);
  }

  lemma {:induction false} RegisteredOwnsAll(
      services: seq<RegisteredService>, declaring: ServiceKey, specs: seq<ScopeSpec>, j: nat)
    requires HasService(services, declaring) && j < |specs|
    ensures RegisterScopes(services, declaring, specs).0[IndexOf(services, declaring)].OwnsKey(specs[j].key)
  {
    var n := |specs| - 1;
    var done := RegisterScopes(services, declaring, specs[..n]).0;
    var i := IndexOf(services, declaring);
    if j < n {
      RegisteredOwnsAll(services, declaring, specs[..n], j);
      PushOwns(done[i], specs[n], specs[j].key);
    } else {
      PushOwns(done[i], specs[n], specs[n].key);
    }
  }

  lemma PushOwns(service: RegisteredService, spec: ScopeSpec, key: ScopeKey)
    ensures service.PushScope(spec).OwnsKey(key) <==> service.OwnsKey(key) || key == spec.key
  {
    KeysSnoc(service.scopes + [spec]);
    assert (service.scopes + [spec])[..|service.scopes|] == service.scopes;
  }

  lemma {:induction false} NothingToAdd(services: seq<RegisteredService>, declaring: ServiceKey, specs: seq<ScopeSpec>)
    requires HasService(services, declaring)
    requires forall j :: 0 <= j < |specs| ==> services[IndexOf(services, declaring)].OwnsKey(specs[j].key)
    ensures RegisterScopes(services, declaring, specs) == (services, [])
  {
    if specs != [] {
      NothingToAdd(services, declaring, specs[..|specs| - 1]);
    }
  }

  /** Declaring the same thing again changes nothing and emits nothing. */
  lemma RegisterIdempotent(registry: RegistryState, d: ScopeDeclaration)
    requires Consistent(registry.services)
    ensures var again := Register(registry, d).0; Register(again, d) == (again, Ok([]))
  {
    ConsistentNeverRefuses(registry, d);
    RegisterKeepsConsistent(registry, d);
    var again := Register(registry, d).0;
    ConsistentNeverRefuses(again, d);
    var ensured := EnsureService(registry.services, d.manifest).0;
    forall j | 0 <= j < |d.scopes|
      ensures again.services[IndexOf(again.services, d.manifest.key)].OwnsKey(d.scopes[j].key)
    {
      RegisteredOwnsAll(ensured, d.manifest.key, d.scopes, j);
    }
    NothingToAdd(again.services, d.manifest.key, d.scopes);
  }

  // ----- replaying events -----

  /** Folds one event into a list of services. */
  function Replay1(services: seq<RegisteredService>, event: RegistryEvent): seq<RegisteredService> {
    match event
    case ServiceRegistered(key, labelKey, descriptionKey) =>
      services + [RegisteredService(ServiceManifest(key, labelKey, descriptionKey), [])]
    case ScopeRegistered(key, owner, labelKey, descriptionKey, platformOnly) =>
      if HasService(services, owner)
      then PushAt(services, IndexOf(services, owner), ScopeSpec(key, labelKey, descriptionKey, platformOnly))
      else services
  }

  function Replay(services: seq<RegisteredService>, events: seq<RegistryEvent>): seq<RegisteredService> {
    if events == [] then services
    else Replay1(Replay(services, events[..|events| - 1]), events[|events| - 1])
  }

  lemma {:induction false} ReplayAppend(services: seq<RegisteredService>, a: seq<RegistryEvent>, b: seq<RegistryEvent>)
    ensures Replay(services, a + b) == Replay(Replay(services, a), b)
  {
    hide Replay1;
    if b == [] {
      assert a + b == a;
    } else {
      var n := |b| - 1;
      ReplayAppend(services, a, b[..n]);
      assert (a + b)[..|a + b| - 1] == a + b[..n];
    }
  }

  lemma Replay1Scope(services: seq<RegisteredService>, declaring: ServiceKey, spec: ScopeSpec)
    requires HasService(services, declaring)
    ensures Replay1(services, ScopeEvent(spec, declaring)) == PushAt(services, IndexOf(services, declaring), spec)
  {}

  lemma ReplaySnoc(services: seq<RegisteredService>, events: seq<RegistryEvent>, event: RegistryEvent)
    ensures Replay(services, events + [event]) == Replay1(Replay(services, events), event)
  {}

  lemma {:induction false} ReplayScopes(services: seq<RegisteredService>, declaring: ServiceKey, specs: seq<ScopeSpec>)
    requires HasService(services, declaring)
    ensures Replay(services, RegisterScopes(services, declaring, specs).1)
            == RegisterScopes(services, declaring, specs).0
  {
    if specs != [] {
      var n := |specs| - 1;
      ReplayScopes(services, declaring, specs[..n]);
      var (done, events) := RegisterScopes(services, declaring, specs[..n]);
      if !done[IndexOf(done, declaring)].OwnsKey(specs[n].key) {
        ReplaySnoc(services, events, ScopeEvent(specs[n], declaring));
        Replay1Scope(done, declaring, specs[n]);
      }
    }
  }

  /** The emitted events carry the whole change: replayed over the old registry they give
      the new one, and there are none exactly when nothing changed. */
  lemma EventsReplay(registry: RegistryState, d: ScopeDeclaration)
    requires Register(registry, d).1.Ok?
    ensures Replay(registry.services, Register(registry, d).1.value) == Register(registry, d).0.services
    ensures Register(registry, d).1.value == [] <==> Register(registry, d).0 == registry
    ensures Register(registry, d).0.version
            == registry.version + (if Register(registry, d).0.services == registry.services then 0 else 1)
  {
    var (ensured, first) := EnsureService(registry.services, d.manifest);
    var (services, rest) := RegisterScopes(ensured, d.manifest.key, d.scopes);
    assert first != [] ==> Replay(registry.services, first[..0]) == registry.services;
    assert Replay(registry.services, first) == ensured;
    ReplayScopes(ensured, d.manifest.key, d.scopes);
    ReplayAppend(registry.services, first, rest);
    RegisterScopesGrow(ensured, d.manifest.key, d.scopes);
    RegisterScopesExtends(ensured, d.manifest.key, d.scopes);
  }

  function TotalScopes(services: seq<RegisteredService>): nat {
    if services == [] then 0 else TotalScopes(services[..|services| - 1]) + |services[|services| - 1].scopes|
  }

  lemma {:induction false} PushGrows(services: seq<RegisteredService>, i: nat, spec: ScopeSpec)
    requires i < |services|
    ensures TotalScopes(PushAt(services, i, spec)) == TotalScopes(services) + 1
  {
    var n := |services| - 1;
    var pushed := services[i := services[i].PushScope(spec)];
    if i == n {
      assert pushed[..n] == services[..n];
    } else {
      PushGrows(services[..n], i, spec);
      assert pushed[..n] == services[..n][i := services[i].PushScope(spec)];
    }
  }

  lemma {:induction false} RegisterScopesGrow(
      services: seq<RegisteredService>, declaring: ServiceKey, specs: seq<ScopeSpec>)
    requires HasService(services, declaring)
    ensures TotalScopes(RegisterScopes(services, declaring, specs).0)
            == TotalScopes(services) + |RegisterScopes(services, declaring, specs).1|
  {
    if specs != [] {
      var n := |specs| - 1;
      RegisterScopesGrow(services, declaring, specs[..n]);
      var done := RegisterScopes(services, declaring, specs[..n]).0;
      var i := IndexOf(done, declaring);
      if !done[i].OwnsKey(specs[n].key) {
        PushGrows(done, i, specs[n]);
      }
    }
  }

  // ----- hydrate -----

  datatype HydrationError =
    | DuplicateService(service: ServiceKey)
    | ScopeOwnerMismatch(key: ScopeKey, owningService: ServiceKey)
    | DuplicateScope(key: ScopeKey)

  /** The error names a fault that the services really have. */
  ghost predicate NamesFault(services: seq<RegisteredService>, error: HydrationError) {
    match error
    case DuplicateService(key) =>
      exists i, j :: 0 <= i < j < |services| && services[i].manifest.key == services[j].manifest.key == key
    case ScopeOwnerMismatch(key, owner) =>
      exists i :: 0 <= i < |services| && services[i].manifest.key == owner
                  && services[i].OwnsKey(key) && !IsOwnedBy(key, owner)
    case DuplicateScope(key) =>
      exists i :: 0 <= i < |services| && services[i].OwnsKey(key) && !DistinctKeys(services[i].scopes)
  }

  /** The fault of the first scope that is foreign or repeated within its service. */
  function FirstScopeFault(service: ServiceKey, scopes: seq<ScopeSpec>): Option<HydrationError> {
    if scopes == [] then None
    else
      var before, key := scopes[..|scopes| - 1], scopes[|scopes| - 1].key;
      match FirstScopeFault(service, before)
      case Some(fault) => Some(fault)
      case None =>
        if !IsOwnedBy(key, service) then Some(ScopeOwnerMismatch(key, service))
        else if key in Keys(before) then Some(DuplicateScope(key))
        else None
  }

  /** The fault of the first service that repeats an earlier one or has a faulty scope. */
  function FirstHydrationFault(services: seq<RegisteredService>): Option<HydrationError> {
    if services == [] then None
    else
      var before, last := services[..|services| - 1], services[|services| - 1];
      match FirstHydrationFault(before)
      case Some(fault) => Some(fault)
      case None =>
        if last.manifest.key in ServiceKeys(before) then Some(DuplicateService(last.manifest.key))
        else FirstScopeFault(last.manifest.key, last.scopes)
  }

  lemma {:induction false} ScopeFaultStays(service: ServiceKey, scopes: seq<ScopeSpec>, n: nat)
    requires n <= |scopes| && FirstScopeFault(service, scopes[..n]).Some?
    ensures FirstScopeFault(service, scopes) == FirstScopeFault(service, scopes[..n])
  {
    if n == |scopes| {
      assert scopes[..n] == scopes;
    } else {
      assert scopes[..|scopes| - 1][..n] == scopes[..n];
      ScopeFaultStays(service, scopes[..|scopes| - 1], n);
    }
  }

  lemma {:induction false} HydrationFaultStays(services: seq<RegisteredService>, n: nat)
    requires n <= |services| && FirstHydrationFault(services[..n]).Some?
    ensures FirstHydrationFault(services) == FirstHydrationFault(services[..n])
  {
    if n == |services| {
      assert services[..n] == services;
    } else {
      assert services[..|services| - 1][..n] == services[..n];
      HydrationFaultStays(services[..|services| - 1], n);
    }
  }

  lemma ScopeFaultSnoc(service: ServiceKey, scopes: seq<ScopeSpec>, k: nat)
    requires k <= |scopes|
    ensures FirstScopeFault(service, []).None?
    ensures k < |scopes| && FirstScopeFault(service, scopes[..k]).None? ==>
              FirstScopeFault(service, scopes[..k + 1]) ==
              if !IsOwnedBy(scopes[k].key, service) then Some(ScopeOwnerMismatch(scopes[k].key, service))
              else if scopes[k].key in Keys(scopes[..k]) then Some(DuplicateScope(scopes[k].key))
              else None
  {
    if k < |scopes| {
      assert scopes[..k + 1][..k] == scopes[..k] && scopes[..k + 1][k] == scopes[k];
    }
  }

  lemma HydrationFaultSnoc(services: seq<RegisteredService>, i: nat)
    requires i <= |services|
    ensures FirstHydrationFault([]).None?
    ensures i < |services| && FirstHydrationFault(services[..i]).None? ==>
              FirstHydrationFault(services[..i + 1]) ==
              if services[i].manifest.key in ServiceKeys(services[..i])
              then Some(DuplicateService(services[i].manifest.key))
              else FirstScopeFault(services[i].manifest.key, services[i].scopes)
  {
    if i < |services| {
      assert services[..i + 1][..i] == services[..i] && services[..i + 1][i] == services[i];
    }
  }

  lemma RepeatedService(services: seq<RegisteredService>, i: nat, j: nat)
    requires i < j < |services| && services[i].manifest.key == services[j].manifest.key
    ensures NamesFault(services, DuplicateService(services[j].manifest.key))
  {}

  lemma FaultOfOne(services: seq<RegisteredService>, i: nat, error: HydrationError)
    requires i < |services| && NamesFault([services[i]], error)
    ensures NamesFault(services, error)
  {
    assert [services[i]][0] == services[i];
    match error
    case DuplicateService(_) =>
    case ScopeOwnerMismatch(key, owner) =>
      assert services[i].OwnsKey(key);
    case DuplicateScope(key) =>
      assert services[i].OwnsKey(key);
  }

  function ServiceKeys(services: seq<RegisteredService>): set<ServiceKey> {
    set i | 0 <= i < |services| :: services[i].manifest.key
  }

  ghost predicate SeenIn(seen: set<ScopeKey>, services: seq<RegisteredService>) {
    forall key :: key in seen <==> exists i :: 0 <= i < |services| && services[i].OwnsKey(key)
  }

  /** Rebuilds a registry from stored services: accepted exactly when they are consistent. */
  method Hydrate(version: nat, services: seq<RegisteredService>) returns (r: Result<RegistryState, HydrationError>)
    ensures r.Ok? <==> Consistent(services)
    ensures r.Ok? ==> r.value == RegistryState(version, services)
    ensures r.Err? ==> NamesFault(services, r.error) && FirstHydrationFault(services) == Some(r.error)
  {
    hide FirstHydrationFault, FirstScopeFault, NamesFault;
    HydrationFaultSnoc(services, 0);
    var registered: seq<RegisteredService> := [];
    var seen: set<ScopeKey> := {};
    var seenServices: set<ServiceKey> := {};
    for i := 0 to |services|
      invariant registered == services[..i] && Consistent(registered)
      invariant seenServices == ServiceKeys(registered)
      invariant SeenIn(seen, registered)
      invariant FirstHydrationFault(services[..i]).None?
    {
      var manifest := services[i].manifest;
      HydrationFaultSnoc(services, i);
      if manifest.key in seenServices {
        ghost var j :| 0 <= j < |registered| && registered[j].manifest.key == manifest.key;
        assert services[j] == registered[j];
        HydrationFaultStays(services, i + 1);
        RepeatedService(services, j, i);
        return Err(DuplicateService(manifest.key));
      }
      var fault, service := HydrateScopes(registered, seen, manifest, services[i].scopes);
      if fault.Some? {
        assert !WellFormed(services[i].manifest.key, services[i].scopes);
        FaultOfOne(services, i, fault.value);
        HydrationFaultStays(services, i + 1);
        return Err(fault.value);
      }
      ConsistentSnoc(registered, service);
      SeenSnoc(seen, registered, service);
      registered := registered + [service];
      seen := seen + Keys(service.scopes);
      seenServices := seenServices + {manifest.key};
      assert services[..i + 1] == registered;
    }
    assert services[..|services|] == services;
    return Ok(RegistryState(version, registered));
  }

  /** Pushes the scopes of one service; `seen` holds the scope keys of the services before it. */
  method HydrateScopes(
      ghost registered: seq<RegisteredService>, seen: set<ScopeKey>, manifest: ServiceManifest, scopes: seq<ScopeSpec>)
    returns (fault: Option<HydrationError>, service: RegisteredService)
    requires Consistent(registered) && SeenIn(seen, registered)
    requires manifest.key !in ServiceKeys(registered)
    ensures fault == FirstScopeFault(manifest.key, scopes)
    ensures fault.None? <==> WellFormed(manifest.key, scopes)
    ensures fault.None? ==> service == RegisteredService(manifest, scopes)
    ensures fault.Some? ==> NamesFault([RegisteredService(manifest, scopes)], fault.value)
  {
    hide FirstScopeFault;
    ghost var whole := [RegisteredService(manifest, scopes)];
    assert FirstScopeFault(manifest.key, scopes[..0]).None? by { ScopeFaultSnoc(manifest.key, scopes, 0); }
    service := RegisteredService(manifest, []);
    for k := 0 to |scopes|
      invariant service == RegisteredService(manifest, scopes[..k])
      invariant WellFormed(manifest.key, scopes[..k])
      invariant FirstScopeFault(manifest.key, scopes[..k]).None?
    {
      var spec := scopes[k];
      ScopeFaultSnoc(manifest.key, scopes, k);
      assert whole[0].OwnsKey(spec.key);
      if !IsOwnedBy(spec.key, manifest.key) {
        ScopeFaultStays(manifest.key, scopes, k + 1);
        return Some(ScopeOwnerMismatch(spec.key, manifest.key)), service;
      }
      WellFormedSnoc(manifest.key, scopes[..k], spec);
      assert scopes[..k + 1] == scopes[..k] + [spec];
      if spec.key in seen + Keys(service.scopes) {
        RepeatIsLocal(registered, seen, manifest.key, spec.key);
        ghost var a :| 0 <= a < k && scopes[..k][a].key == spec.key;
        assert scopes[a].key == scopes[k].key;
        ScopeFaultStays(manifest.key, scopes, k + 1);
        return Some(DuplicateScope(spec.key)), service;
      }
      service := service.PushScope(spec);
    }
    assert scopes[..|scopes|] == scopes;
    return None, service;
  }

  /** A key with this prefix was not seen in an earlier service of a consistent list. */
  lemma RepeatIsLocal(registered: seq<RegisteredService>, seen: set<ScopeKey>, service: ServiceKey, key: ScopeKey)
    requires Consistent(registered) && SeenIn(seen, registered)
    requires service !in ServiceKeys(registered) && IsOwnedBy(key, service)
    ensures key !in seen
  {}

  lemma SeenSnoc(seen: set<ScopeKey>, services: seq<RegisteredService>, service: RegisteredService)
    requires SeenIn(seen, services)
    ensures SeenIn(seen + Keys(service.scopes), services + [service])
  {
    var all := services + [service];
    forall key
      ensures key in seen + Keys(service.scopes) <==> exists i :: 0 <= i < |all| && all[i].OwnsKey(key)
    {
      if key in seen {
        var i :| 0 <= i < |services| && services[i].OwnsKey(key);
        assert all[i].OwnsKey(key);
      }
      assert all[|services|] == service;
      if i :| 0 <= i < |all| && all[i].OwnsKey(key) {
        assert i < |services| ==> services[i].OwnsKey(key);
      }
    }
  }

  lemma ConsistentSnoc(services: seq<RegisteredService>, service: RegisteredService)
    requires Consistent(services) && service.manifest.key !in ServiceKeys(services)
    requires WellFormed(service.manifest.key, service.scopes)
    ensures Consistent(services + [service])
    ensures ServiceKeys(services + [service]) == ServiceKeys(services) + {service.manifest.key}
  {
    var all := services + [service];
    assert all[|services|] == service;
    forall i | 0 <= i < |services|
      ensures all[i].manifest.key != service.manifest.key
    {
      assert services[i].manifest.key in ServiceKeys(services);
    }
    forall key | key in ServiceKeys(services)
      ensures key in ServiceKeys(all)
    {
      var i :| 0 <= i < |services| && services[i].manifest.key == key;
      assert all[i].manifest.key == key;
    }
    assert all[|services|].manifest.key in ServiceKeys(all);
  }

  lemma {:induction false} NoScopeFaultIff(service: ServiceKey, scopes: seq<ScopeSpec>)
    ensures FirstScopeFault(service, scopes).None? <==> WellFormed(service, scopes)
  {
    if scopes != [] {
      var before, spec := scopes[..|scopes| - 1], scopes[|scopes| - 1];
      NoScopeFaultIff(service, before);
      WellFormedSnoc(service, before, spec);
      assert scopes == before + [spec];
    }
  }

  /** The error of a failed hydration is the first in the order of the services: those before
      it are consistent, a repeated service is reported before any of its scopes, and without an
      error all of them are consistent. */
  lemma {:induction false} HydrationFaultIsFirst(services: seq<RegisteredService>)
    ensures FirstHydrationFault(services).None? <==> Consistent(services)
    ensures FirstHydrationFault(services).Some? ==>
              exists i :: 0 <= i < |services| && Consistent(services[..i]) &&
                var service := services[i];
                FirstHydrationFault(services) ==
                if service.manifest.key in ServiceKeys(services[..i]) then Some(DuplicateService(service.manifest.key))
                else FirstScopeFault(service.manifest.key, service.scopes)
  {
    if services != [] {
      var n: nat := |services| - 1;
      var before, last := services[..n], services[n];
      HydrationFaultIsFirst(before);
      NoScopeFaultIff(last.manifest.key, last.scopes);
      assert services == before + [last];
      if FirstHydrationFault(before).Some? {
        var i :| 0 <= i < n && Consistent(before[..i]) &&
          var service := before[i];
          FirstHydrationFault(before) ==
          if service.manifest.key in ServiceKeys(before[..i]) then Some(DuplicateService(service.manifest.key))
          else FirstScopeFault(service.manifest.key, service.scopes);
        assert before[..i] == services[..i] && before[i] == services[i];
        ConsistentPrefix(services, n);
      } else if FirstHydrationFault(services).None? {
        ConsistentSnoc(before, last);
      } else {
        LastIsSound(services);
      }
    }
  }

  lemma ConsistentPrefix(services: seq<RegisteredService>, n: nat)
    requires n <= |services|
    ensures Consistent(services) ==> Consistent(services[..n])
  {}

  lemma LastIsSound(services: seq<RegisteredService>)
    requires services != []
    ensures var n := |services| - 1;
            Consistent(services) ==>
              && services[n].manifest.key !in ServiceKeys(services[..n])
              && WellFormed(services[n].manifest.key, services[n].scopes)
  {}
}
