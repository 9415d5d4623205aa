/** The two registry tables, and what a declaration means for them: every row it names is
    there afterwards, and a row that was there before keeps its first metadata. */
module RegistryTables {
  import opened ScopeKeys
  import opened Declarations
  import opened Registry

  datatype ServiceRow = ServiceRow(labelKey: string, descriptionKey: string)

  datatype ScopeRow = ScopeRow(owner: string, labelKey: string, descriptionKey: string, platformOnly: bool)

  /** `scope_registry_service` by service key and `scope_registry` by scope key. */
  datatype Tables = Tables(services: map<string, ServiceRow>, scopes: map<string, ScopeRow>)

  function RowOfService(manifest: ServiceManifest): ServiceRow {
    ServiceRow(manifest.labelKey, manifest.descriptionKey)
  }

  function RowOfSpec(owner: ServiceKey, spec: ScopeSpec): ScopeRow {
    ScopeRow(owner, spec.labelKey, spec.descriptionKey, spec.platformOnly)
  }

  function ServiceTable(services: seq<RegisteredService>): map<string, ServiceRow> {
    if services == [] then map[]
    else
      var last := services[|services| - 1];
      ServiceTable(services[..|services| - 1])[last.manifest.key := RowOfService(last.manifest)]
  }

  function SpecTable(owner: ServiceKey, specs: seq<ScopeSpec>): map<string, ScopeRow> {
    if specs == [] then map[]
    else
      var last := specs[|specs| - 1];
      SpecTable(owner, specs[..|specs| - 1])[last.key := RowOfSpec(owner, last)]
  }

  function ScopeTable(services: seq<RegisteredService>): map<string, ScopeRow> {
    if services == [] then map[]
    else
      var last := services[|services| - 1];
      ScopeTable(services[..|services| - 1]) + SpecTable(last.manifest.key, last.scopes)
  }

  function TablesOf(services: seq<RegisteredService>): Tables {
    Tables(ServiceTable(services), ScopeTable(services))
  }

  /** The tables after a declaration: its rows are added where the key is new. */
  function Declare(t: Tables, d: ScopeDeclaration): Tables {
    Tables(
      map[d.manifest.key := RowOfService(d.manifest)] + t.services,
      SpecTable(d.manifest.key, d.scopes) + t.scopes)
  }

  /** What an accepted requester relies on: its service and every declared key are stored,
      the keys under its own name. */
  ghost predicate Holds(t: Tables, d: ScopeDeclaration) {
    && d.manifest.key in t.services
    && forall i :: 0 <= i < |d.scopes| ==>
         d.scopes[i].key in t.scopes && t.scopes[d.scopes[i].key].owner == d.manifest.key
  }

  /** Every scope row is owned by its key prefix. */
  ghost predicate PrefixOwned(t: Tables) {
    forall k :: k in t.scopes ==> ServiceSegment(k) == t.scopes[k].owner
  }

  /** Every stored key parses, every scope is owned by its prefix, and its owner is stored. */
  ghost predicate Sound(t: Tables) {
    && (forall k :: k in t.services ==> IsServiceKey(k))
    && (forall k :: k in t.scopes ==> IsScopeKey(k))
    && PrefixOwned(t)
    && forall k :: k in t.scopes ==> t.scopes[k].owner in t.services
  }

  ghost predicate SubTables(a: Tables, b: Tables) {
    && (forall k :: k in a.services ==> k in b.services && b.services[k] == a.services[k])
    && forall k :: k in a.scopes ==> k in b.scopes && b.scopes[k] == a.scopes[k]
  }

  // ----- reading the tables of a list -----

  lemma {:induction false} ServiceTableAt(services: seq<RegisteredService>)
    ensures forall k :: k in ServiceTable(services) <==> HasService(services, k)
    ensures DistinctServices(services) ==>
              forall i :: 0 <= i < |services| ==>
                services[i].manifest.key in ServiceTable(services)
                && ServiceTable(services)[services[i].manifest.key] == RowOfService(services[i].manifest)
  {
    if services != [] {
      var n := |services| - 1;
      ServiceTableAt(services[..n]);
      forall k
        ensures k in ServiceTable(services) <==> HasService(services, k)
      {
        IndexOfInit(services, k);
      }
      assert DistinctServices(services) ==> DistinctServices(services[..n]);
      assert forall i :: 0 <= i < n ==> services[i] == services[..n][i];
    }
  }

  lemma IndexOfInit(services: seq<RegisteredService>, key: ServiceKey)
    requires services != []
    ensures HasService(services, key) <==>
            HasService(services[..|services| - 1], key) || services[|services| - 1].manifest.key == key
  {}

  lemma {:induction false} SpecTableAt(owner: ServiceKey, specs: seq<ScopeSpec>)
    ensures forall k :: k in SpecTable(owner, specs) <==> k in Keys(specs)
    ensures forall k :: k in SpecTable(owner, specs) ==> SpecTable(owner, specs)[k].owner == owner
  {
    if specs != [] {
      SpecTableAt(owner, specs[..|specs| - 1]);
      KeysSnoc(specs);
    }
  }

  lemma {:induction false} SpecRow(owner: ServiceKey, specs: seq<ScopeSpec>, i: nat)
    requires DistinctKeys(specs) && i < |specs|
    ensures specs[i].key in SpecTable(owner, specs)
    ensures SpecTable(owner, specs)[specs[i].key] == RowOfSpec(owner, specs[i])
  {
    var n := |specs| - 1;
    if i < n {
      SpecRow(owner, specs[..n], i);
    }
  }

  /** A scope key is in the table exactly when some service lists it. */
  lemma {:induction false} ScopeTableAt(services: seq<RegisteredService>, key: ScopeKey)
    ensures key in ScopeTable(services) <==> exists i :: 0 <= i < |services| && services[i].OwnsKey(key)
  {
    if services != [] {
      var n := |services| - 1;
      ScopeTableAt(services[..n], key);
      SpecTableAt(services[n].manifest.key, services[n].scopes);
      assert forall i :: 0 <= i < n ==> services[..n][i] == services[i];
    }
  }

  /** In a consistent list the owner of a key is the service that lists it. */
  lemma OwnedKeyIsLocal(services: seq<RegisteredService>, i: nat, key: ScopeKey)
    requires Consistent(services) && i < |services| && IsOwnedBy(key, services[i].manifest.key)
    ensures key in ScopeTable(services) <==> services[i].OwnsKey(key)
  {
    ScopeTableAt(services, key);
    if key in ScopeTable(services) {
      var j :| 0 <= j < |services| && services[j].OwnsKey(key);
      OwnerIsPrefix(services, j, key);
    }
  }

  // ----- registration on the tables -----

  lemma SpecTableSnoc(owner: ServiceKey, specs: seq<ScopeSpec>, spec: ScopeSpec)
    ensures SpecTable(owner, specs + [spec]) == SpecTable(owner, specs)[spec.key := RowOfSpec(owner, spec)]
  {}

  lemma ScopeTableSnoc(services: seq<RegisteredService>, service: RegisteredService)
    ensures ScopeTable(services + [service])
            == ScopeTable(services) + SpecTable(service.manifest.key, service.scopes)
    ensures ServiceTable(services + [service])
            == ServiceTable(services)[service.manifest.key := RowOfService(service.manifest)]
  {}

  lemma UpdateLeft<K, V>(m: map<K, V>, n: map<K, V>, k: K, v: V)
    requires k !in n
    ensures m[k := v] + n == (m + n)[k := v]
  {}

  lemma UpdateShadowed<K, V>(m: map<K, V>, n: map<K, V>, k: K, v: V)
    requires k in n
    ensures m[k := v] + n == m + n
  {}

  lemma PushAtLast(before: seq<RegisteredService>, last: RegisteredService, spec: ScopeSpec)
    ensures PushAt(before + [last], |before|, spec) == before + [last.PushScope(spec)]
  {}

  lemma PushAtEarlier(before: seq<RegisteredService>, last: RegisteredService, i: nat, spec: ScopeSpec)
    requires i < |before|
    ensures PushAt(before + [last], i, spec) == PushAt(before, i, spec) + [last]
  {}

  lemma PushLastTable(before: seq<RegisteredService>, last: RegisteredService, spec: ScopeSpec)
    ensures ScopeTable(before + [last.PushScope(spec)])
            == ScopeTable(before + [last])[spec.key := RowOfSpec(last.manifest.key, spec)]
  {}

  lemma {:induction false} PushScopeTable(services: seq<RegisteredService>, i: nat, spec: ScopeSpec)
    requires Consistent(services) && i < |services| && IsOwnedBy(spec.key, services[i].manifest.key)
    ensures ScopeTable(PushAt(services, i, spec))
            == ScopeTable(services)[spec.key := RowOfSpec(services[i].manifest.key, spec)]
  {
    var n := |services| - 1;
    var before, last := services[..n], services[n];
    assert services == before + [last];
    if i == n {
      PushAtLast(before, last, spec);
      PushLastTable(before, last, spec);
    } else {
      assert Consistent(before);
      PushScopeTable(before, i, spec);
      PushAtEarlier(before, last, i, spec);
      ScopeTableSnoc(before, last);
      ScopeTableSnoc(PushAt(before, i, spec), last);
      ForeignKeyAbsent(services, n, spec.key);
      UpdateLeft(ScopeTable(before), SpecTable(last.manifest.key, last.scopes), spec.key,
                 RowOfSpec(services[i].manifest.key, spec));
    }
  }

  lemma ForeignKeyAbsent(services: seq<RegisteredService>, i: nat, key: ScopeKey)
    requires Consistent(services) && i < |services| && !IsOwnedBy(key, services[i].manifest.key)
    ensures key !in SpecTable(services[i].manifest.key, services[i].scopes)
  {
    SpecTableAt(services[i].manifest.key, services[i].scopes);
    if services[i].OwnsKey(key) {
      OwnerIsPrefix(services, i, key);
    }
  }

  lemma {:induction false} SameServiceTable(a: seq<RegisteredService>, b: seq<RegisteredService>)
    requires |a| == |b| && forall i :: 0 <= i < |a| ==> a[i].manifest == b[i].manifest
    ensures ServiceTable(a) == ServiceTable(b)
  {
    if a != [] {
      SameServiceTable(a[..|a| - 1], b[..|b| - 1]);
    }
  }

  lemma {:induction false} RegisterScopesTable(
      services: seq<RegisteredService>, declaring: ServiceKey, specs: seq<ScopeSpec>)
    requires Consistent(services) && HasService(services, declaring) && WellFormed(declaring, specs)
    ensures ScopeTable(RegisterScopes(services, declaring, specs).0)
            == SpecTable(declaring, specs) + ScopeTable(services)
  {
    if specs != [] {
      var n := |specs| - 1;
      var before, spec := specs[..n], specs[n];
      assert specs == before + [spec];
      WellFormedSnoc(declaring, before, spec);
      RegisterScopesTable(services, declaring, before);
      RegisterScopesConsistent(services, declaring, before);
      var done := RegisterScopes(services, declaring, before).0;
      RegisterOneTable(services, done, declaring, before, spec);
    }
  }

  lemma RegisterOneTable(
      services: seq<RegisteredService>, done: seq<RegisteredService>, declaring: ServiceKey,
      before: seq<ScopeSpec>, spec: ScopeSpec)
    requires Consistent(done) && HasService(done, declaring)
    requires IsOwnedBy(spec.key, declaring) && spec.key !in Keys(before)
    requires ScopeTable(done) == SpecTable(declaring, before) + ScopeTable(services)
    ensures var at := IndexOf(done, declaring);
            ScopeTable(if done[at].OwnsKey(spec.key) then done else PushAt(done, at, spec))
            == SpecTable(declaring, before + [spec]) + ScopeTable(services)
  {
    var at, row := IndexOf(done, declaring), RowOfSpec(declaring, spec);
    var m, n := SpecTable(declaring, before), ScopeTable(services);
    SpecTableSnoc(declaring, before, spec);
    SpecTableAt(declaring, before);
    OwnedKeyIsLocal(done, at, spec.key);
    if done[at].OwnsKey(spec.key) {
      UpdateShadowed(m, n, spec.key, row);
    } else {
      PushScopeTable(done, at, spec);
      UpdateLeft(m, n, spec.key, row);
    }
  }

  lemma NewServiceConsistent(services: seq<RegisteredService>, manifest: ServiceManifest)
    requires Consistent(services) && !HasService(services, manifest.key)
    ensures Consistent(services + [RegisteredService(manifest, [])])
  {}

  lemma UpdateFront<K, V>(m: map<K, V>, k: K, v: V)
    ensures map[k := v] + m == if k in m then m else m[k := v]
  {}

  lemma EnsureServiceTables(services: seq<RegisteredService>, manifest: ServiceManifest)
    requires Consistent(services)
    ensures var ensured := EnsureService(services, manifest).0;
            && Consistent(ensured)
            && ScopeTable(ensured) == ScopeTable(services)
            && ServiceTable(ensured) == map[manifest.key := RowOfService(manifest)] + ServiceTable(services)
  {
    ServiceTableAt(services);
    UpdateFront(ServiceTable(services), manifest.key, RowOfService(manifest));
    if !HasService(services, manifest.key) {
      NewServiceConsistent(services, manifest);
      ScopeTableSnoc(services, RegisteredService(manifest, []));
    }
  }

  /** The list-level registration is `Declare` on the tables. */
  lemma RegisterIsDeclare(registry: RegistryState, d: ScopeDeclaration)
    requires Consistent(registry.services)
    ensures TablesOf(Register(registry, d).0.services) == Declare(TablesOf(registry.services), d)
  {
    ConsistentNeverRefuses(registry, d);
    EnsureServiceTables(registry.services, d.manifest);
    var ensured := EnsureService(registry.services, d.manifest).0;
    RegisterScopesTable(ensured, d.manifest.key, d.scopes);
    RegisterScopesExtends(ensured, d.manifest.key, d.scopes);
    SameServiceTable(ensured, RegisterScopes(ensured, d.manifest.key, d.scopes).0);
  }

  /** The version moves exactly when the tables do. */
  lemma VersionMovesWithTables(registry: RegistryState, d: ScopeDeclaration)
    requires Consistent(registry.services)
    ensures var t := TablesOf(registry.services);
            Register(registry, d).0.version == registry.version + (if Declare(t, d) == t then 0 else 1)
  {
    ConsistentNeverRefuses(registry, d);
    RegisterIsDeclare(registry, d);
    var t := TablesOf(registry.services);
    if Declare(t, d) == t {
      PrefixOwnedTables(registry.services);
      HoldsAfterDeclare(t, d);
      NothingNew(registry, d);
    } else {
      EventsReplay(registry, d);
    }
  }

  lemma PrefixOwnedTables(services: seq<RegisteredService>)
    requires Consistent(services)
    ensures PrefixOwned(TablesOf(services))
  {
    if services != [] {
      var n := |services| - 1;
      assert Consistent(services[..n]);
      PrefixOwnedTables(services[..n]);
      SpecTableAt(services[n].manifest.key, services[n].scopes);
      forall k | k in SpecTable(services[n].manifest.key, services[n].scopes)
        ensures ServiceSegment(k) == services[n].manifest.key
      {
        OwnerIsPrefix(services, n, k);
      }
    }
  }

  lemma HoldsAfterDeclare(t: Tables, d: ScopeDeclaration)
    requires PrefixOwned(t)
    ensures Holds(Declare(t, d), d) && SubTables(t, Declare(t, d)) && PrefixOwned(Declare(t, d))
  {
    SpecTableAt(d.manifest.key, d.scopes);
    forall i | 0 <= i < |d.scopes|
      ensures d.scopes[i].key in Declare(t, d).scopes
      ensures Declare(t, d).scopes[d.scopes[i].key].owner == d.manifest.key
    {
      assert d.scopes[i].key in Keys(d.scopes);
      assert IsOwnedBy(d.scopes[i].key, d.manifest.key);
    }
    forall k | k in SpecTable(d.manifest.key, d.scopes)
      ensures ServiceSegment(k) == d.manifest.key
    {
      var i :| 0 <= i < |d.scopes| && d.scopes[i].key == k;
      assert IsOwnedBy(d.scopes[i].key, d.manifest.key);
    }
  }

  lemma DeclareKeepsSound(t: Tables, d: ScopeDeclaration)
    requires Sound(t) && KeysParsed(d)
    ensures Sound(Declare(t, d))
  {
    HoldsAfterDeclare(t, d);
    SpecTableAt(d.manifest.key, d.scopes);
  }

  lemma NothingNew(registry: RegistryState, d: ScopeDeclaration)
    requires Consistent(registry.services) && Holds(TablesOf(registry.services), d)
    ensures Register(registry, d).0 == registry
  {
    ConsistentNeverRefuses(registry, d);
    var services := registry.services;
    ServiceTableAt(services);
    var i := IndexOf(services, d.manifest.key);
    forall j | 0 <= j < |d.scopes|
      ensures services[i].OwnsKey(d.scopes[j].key)
    {
      assert IsOwnedBy(d.scopes[j].key, d.manifest.key);
      OwnedKeyIsLocal(services, i, d.scopes[j].key);
    }
    NothingToAdd(services, d.manifest.key, d.scopes);
  }

  lemma SubTablesHolds(a: Tables, b: Tables, d: ScopeDeclaration)
    requires SubTables(a, b) && Holds(a, d)
    ensures Holds(b, d)
  {}

  /** First metadata wins, in memory and in the tables: a later declaration of the same keys
      with other labels leaves both as they are. */
  lemma FirstMetadataWins(t: Tables, d: ScopeDeclaration)
    requires Holds(t, d)
    ensures Declare(t, d) == t
  {
    SpecTableAt(d.manifest.key, d.scopes);
    forall k | k in SpecTable(d.manifest.key, d.scopes)
      ensures k in t.scopes
    {
      var i :| 0 <= i < |d.scopes| && d.scopes[i].key == k;
    }
    assert Declare(t, d).scopes == t.scopes;
  }
}
