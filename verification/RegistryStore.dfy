/** Loading a registry from stored rows and saving it under the head version. */
module RegistryStore {
  import opened Wrappers
  import opened ScopeKeys
  import opened Declarations
  import opened Registry
  import opened RegistryTables

  datatype AppError =
    | MissingRegistryHead
    | CorruptStoredKey(value: string)
    | Hydration(error: HydrationError)

  type ServiceRecord = (string, ServiceRow)
  type ScopeRecord = (string, ScopeRow)

  // ----- hydration input -----

  function ParseServices(rows: seq<ServiceRecord>): Result<seq<RegisteredService>, AppError> {
    if rows == [] then Ok([])
    else
      var (key, row) := rows[|rows| - 1];
      match ParseServices(rows[..|rows| - 1])
      case Err(e) => Err(e)
      case Ok(services) =>
        if !IsServiceKey(key) then Err(CorruptStoredKey(key))
        else Ok(services + [RegisteredService(ServiceManifest(key, row.labelKey, row.descriptionKey), [])])
  }

  function SpecOf(key: ScopeKey, row: ScopeRow): ScopeSpec {
    ScopeSpec(key, row.labelKey, row.descriptionKey, row.platformOnly)
  }

  function AttachScope(
      services: seq<RegisteredService>, record: ScopeRecord): Result<seq<RegisteredService>, AppError> {
    var (key, row) := record;
    if !IsScopeKey(key) then Err(CorruptStoredKey(key))
    else if !IsServiceKey(row.owner) then Err(CorruptStoredKey(row.owner))
    else if HasService(services, row.owner) then Ok(PushAt(services, IndexOf(services, row.owner), SpecOf(key, row)))
    else Err(Hydration(ScopeOwnerMismatch(key, row.owner)))
  }

  /** Groups the scope rows under their services, in order. */
  function AttachScopes(
      services: seq<RegisteredService>, rows: seq<ScopeRecord>): Result<seq<RegisteredService>, AppError> {
    if rows == [] then Ok(services)
    else
      match AttachScopes(services, rows[..|rows| - 1])
      case Err(e) => Err(e)
      case Ok(grouped) => AttachScope(grouped, rows[|rows| - 1])
  }

  function HydrationInput(
      serviceRows: seq<ServiceRecord>, scopeRows: seq<ScopeRecord>): Result<seq<RegisteredService>, AppError> {
    match ParseServices(serviceRows)
    case Err(e) => Err(e)
    case Ok(services) => AttachScopes(services, scopeRows)
  }

  method BuildHydrationInput(serviceRows: seq<ServiceRecord>, scopeRows: seq<ScopeRecord>)
    returns (r: Result<seq<RegisteredService>, AppError>)
    ensures r == HydrationInput(serviceRows, scopeRows)
  {
    var services: seq<RegisteredService> := [];
    for i := 0 to |serviceRows|
      invariant ParseServices(serviceRows[..i]) == Ok(services)
    {
      var (key, row) := serviceRows[i];
      assert serviceRows[..i + 1][..i] == serviceRows[..i];
      if !IsServiceKey(key) {
        ParseFailureStays(serviceRows, i + 1);
        return Err(CorruptStoredKey(key));
      }
      services := services + [RegisteredService(ServiceManifest(key, row.labelKey, row.descriptionKey), [])];
    }
    assert serviceRows[..|serviceRows|] == serviceRows;
    ghost var parsed := services;
    for i := 0 to |scopeRows|
      invariant AttachScopes(parsed, scopeRows[..i]) == Ok(services)
    {
      assert scopeRows[..i + 1][..i] == scopeRows[..i];
      var attached := AttachScope(services, scopeRows[i]);
      if attached.Err? {
        AttachFailureStays(parsed, scopeRows, i + 1);
        return attached;
      }
      services := attached.value;
    }
    assert scopeRows[..|scopeRows|] == scopeRows;
    return Ok(services);
  }

  lemma {:induction false} ParseFailureStays(rows: seq<ServiceRecord>, n: nat)
    requires n <= |rows| && ParseServices(rows[..n]).Err?
    ensures ParseServices(rows) == ParseServices(rows[..n])
  {
    if n == |rows| {
      assert rows[..n] == rows;
    } else {
      assert rows[..|rows| - 1][..n] == rows[..n];
      ParseFailureStays(rows[..|rows| - 1], n);
    }
  }

  lemma {:induction false} AttachFailureStays(services: seq<RegisteredService>, rows: seq<ScopeRecord>, n: nat)
    requires n <= |rows| && AttachScopes(services, rows[..n]).Err?
    ensures AttachScopes(services, rows) == AttachScopes(services, rows[..n])
  {
    if n == |rows| {
      assert rows[..n] == rows;
    } else {
      assert rows[..|rows| - 1][..n] == rows[..n];
      AttachFailureStays(services, rows[..|rows| - 1], n);
    }
  }

  lemma AttachKeepsServices(services: seq<RegisteredService>, rows: seq<ScopeRecord>, key: ServiceKey)
    requires AttachScopes(services, rows).Ok?
    ensures HasService(AttachScopes(services, rows).value, key) <==> HasService(services, key)
    decreases |rows|
  {}

  /** The first service row whose key does not parse is reported, before any scope row. */
  lemma ServiceRowReported(serviceRows: seq<ServiceRecord>, scopeRows: seq<ScopeRecord>, i: nat)
    requires i < |serviceRows| && !IsServiceKey(serviceRows[i].0)
    requires forall j :: 0 <= j < i ==> IsServiceKey(serviceRows[j].0)
    ensures HydrationInput(serviceRows, scopeRows) == Err(CorruptStoredKey(serviceRows[i].0))
  {
    hide IsServiceKey, AttachScopes;
    AllKeysParse(serviceRows[..i]);
    assert serviceRows[..i + 1][..i] == serviceRows[..i];
    ParseFailureStays(serviceRows, i + 1);
  }

  /** Then the first scope row whose key does not parse, or whose owner's does not, or whose owner is
      not among the services, each with what is wrong with it. */
  lemma ScopeRowReported(serviceRows: seq<ServiceRecord>, scopeRows: seq<ScopeRecord>, i: nat)
    requires ParseServices(serviceRows).Ok? && i < |scopeRows|
    requires AttachScopes(ParseServices(serviceRows).value, scopeRows[..i]).Ok?
    ensures var (key, row) := scopeRows[i];
            && (!IsScopeKey(key) ==> HydrationInput(serviceRows, scopeRows) == Err(CorruptStoredKey(key)))
            && (IsScopeKey(key) && !IsServiceKey(row.owner) ==>
                  HydrationInput(serviceRows, scopeRows) == Err(CorruptStoredKey(row.owner)))
            && (IsScopeKey(key) && IsServiceKey(row.owner)
                && !HasService(ParseServices(serviceRows).value, row.owner) ==>
                  HydrationInput(serviceRows, scopeRows) == Err(Hydration(ScopeOwnerMismatch(key, row.owner))))
  {
    hide IsServiceKey, IsScopeKey, ParseServices, HasService;
    var services := ParseServices(serviceRows).value;
    AttachKeepsServices(services, scopeRows[..i], scopeRows[i].1.owner);
    assert scopeRows[..i + 1][..i] == scopeRows[..i];
    if AttachScopes(services, scopeRows[..i + 1]).Err? {
      AttachFailureStays(services, scopeRows, i + 1);
    }
  }

  lemma {:induction false} AllKeysParse(rows: seq<ServiceRecord>)
    requires forall j :: 0 <= j < |rows| ==> IsServiceKey(rows[j].0)
    ensures ParseServices(rows).Ok?
  {
    if rows != [] {
      AllKeysParse(rows[..|rows| - 1]);
    }
  }

  /** The registry that a load builds from the rows it read, if it succeeds. */
  ghost function LoadOf(
      version: nat, serviceRows: seq<ServiceRecord>, scopeRows: seq<ScopeRecord>): Option<RegistryState> {
    match HydrationInput(serviceRows, scopeRows)
    case Ok(services) => if Consistent(services) then Some(RegistryState(version, services)) else None
    case Err(_) => None
  }

  /** Rows are grouped before anything is hydrated, so a corrupt key is reported before an
      inconsistent registry. */
  function FirstLoadFault(serviceRows: seq<ServiceRecord>, scopeRows: seq<ScopeRecord>): Option<AppError> {
    match HydrationInput(serviceRows, scopeRows)
    case Err(e) => Some(e)
    case Ok(services) =>
      match FirstHydrationFault(services)
      case Some(e) => Some(Hydration(e))
      case None => None
  }

  method Load(head: Option<nat>, serviceRows: seq<ServiceRecord>, scopeRows: seq<ScopeRecord>)
    returns (r: Result<RegistryState, AppError>)
    ensures head.None? <==> r == Err(MissingRegistryHead)
    ensures head.Some? ==>
              match LoadOf(head.value, serviceRows, scopeRows)
              case Some(registry) => r == Ok(registry)
              case None => r.Err? && FirstLoadFault(serviceRows, scopeRows) == Some(r.error)
  {
    if head.None? {
      return Err(MissingRegistryHead);
    }
    var input := BuildHydrationInput(serviceRows, scopeRows);
    if input.Err? {
      NeverMissingHead(serviceRows, scopeRows);
      return Err(input.error);
    }
    var hydrated := Hydrate(head.value, input.value);
    match hydrated
    case Ok(registry) => return Ok(registry);
    case Err(e) => return Err(Hydration(e));
  }

  lemma {:induction false} NeverMissingHead(serviceRows: seq<ServiceRecord>, scopeRows: seq<ScopeRecord>)
    ensures HydrationInput(serviceRows, scopeRows) != Err(MissingRegistryHead)
    decreases |serviceRows|, |scopeRows|
  {
    match ParseServices(serviceRows)
    case Err(_) =>
      if ParseServices(serviceRows[..|serviceRows| - 1]).Err? {
        NeverMissingHead(serviceRows[..|serviceRows| - 1], scopeRows);
      }
    case Ok(_) =>
      if scopeRows != [] {
        NeverMissingHead(serviceRows, scopeRows[..|scopeRows| - 1]);
      }
  }

  // ----- what a read returns -----

  ghost predicate DistinctRows<R>(rows: seq<(string, R)>) {
    forall i, j :: 0 <= i < j < |rows| ==> rows[i].0 != rows[j].0
  }

  function FromRows<R>(rows: seq<(string, R)>): map<string, R> {
    if rows == [] then map[]
    else FromRows(rows[..|rows| - 1])[rows[|rows| - 1].0 := rows[|rows| - 1].1]
  }

  /** One read of a whole table: its rows once each, in any order. The `ORDER BY` of the
      source picks one such order. */
  ghost predicate Enumerates<R>(rows: seq<(string, R)>, table: map<string, R>) {
    DistinctRows(rows) && FromRows(rows) == table
  }

  lemma {:induction false} FromRowsAt<R>(rows: seq<(string, R)>, key: string)
    ensures key in FromRows(rows) <==> Listed(rows, key)
  {
    if rows != [] {
      FromRowsAt(rows[..|rows| - 1], key);
    }
  }

  ghost predicate Listed<R>(rows: seq<(string, R)>, key: string) {
    exists i :: 0 <= i < |rows| && rows[i].0 == key
  }

  lemma ListedSnoc<R>(rows: seq<(string, R)>, key: string)
    requires rows != []
    ensures Listed(rows, key) <==> Listed(rows[..|rows| - 1], key) || rows[|rows| - 1].0 == key
  {
    var n: nat := |rows| - 1;
    if i :| 0 <= i < n && rows[i].0 == key {
      assert rows[..n][i].0 == key;
    }
  }

  lemma ServiceKeysSnoc(services: seq<RegisteredService>, service: RegisteredService, key: string)
    ensures key in ServiceKeys(services + [service]) <==> key in ServiceKeys(services) || key == service.manifest.key
  {
    var all := services + [service];
    assert all[|services|] == service;
    if i :| 0 <= i < |services| && services[i].manifest.key == key {
      assert all[i].manifest.key == key;
    }
  }

  lemma {:induction false} ParsedKeys(rows: seq<ServiceRecord>, key: string)
    requires forall i :: 0 <= i < |rows| ==> IsServiceKey(rows[i].0)
    ensures ParseServices(rows).Ok?
    ensures key in ServiceKeys(ParseServices(rows).value) <==> Listed(rows, key)
  {
    if rows != [] {
      var n: nat := |rows| - 1;
      ParsedKeys(rows[..n], key);
      ListedSnoc(rows, key);
      hide Listed, ServiceKeys;
      assert IsServiceKey(rows[n].0);
      var (name, row) := rows[n];
      ServiceKeysSnoc(ParseServices(rows[..n]).value,
                      RegisteredService(ServiceManifest(name, row.labelKey, row.descriptionKey), []), key);
    }
  }

  lemma {:induction false} ParsedTable(rows: seq<ServiceRecord>)
    requires DistinctRows(rows) && forall i :: 0 <= i < |rows| ==> IsServiceKey(rows[i].0)
    ensures ParseServices(rows).Ok?
    ensures var services := ParseServices(rows).value;
            && Consistent(services)
            && TablesOf(services) == Tables(FromRows(rows), map[])
            && forall k :: k in ServiceKeys(services) <==> Listed(rows, k)
  {
    if rows != [] {
      var n: nat := |rows| - 1;
      ParsedTable(rows[..n]);
      var before := ParseServices(rows[..n]).value;
      var (key, row) := rows[n];
      var added := RegisteredService(ServiceManifest(key, row.labelKey, row.descriptionKey), []);
      assert !Listed(rows[..n], key);
      ParsedKeys(rows[..n], key);
      ConsistentSnoc(before, added);
      ScopeTableSnoc(before, added);
    }
    forall k
      ensures k in ServiceKeys(ParseServices(rows).value) <==> Listed(rows, k)
    {
      ParsedKeys(rows, k);
    }
  }

  /** Attaching one stored scope row to a consistent list. */
  lemma AttachOne(services: seq<RegisteredService>, record: ScopeRecord)
    requires Consistent(services) && record.0 !in ScopeTable(services)
    requires IsScopeKey(record.0) && ServiceSegment(record.0) == record.1.owner
    ensures AttachScope(services, record).Ok? <==> record.1.owner in ServiceTable(services)
    ensures AttachScope(services, record).Ok? ==>
              var grouped := AttachScope(services, record).value;
              && Consistent(grouped)
              && ServiceTable(grouped) == ServiceTable(services)
              && ScopeTable(grouped) == ScopeTable(services)[record.0 := record.1]
  {
    var (key, row) := record;
    ServiceTableAt(services);
    if HasService(services, row.owner) {
      var i := IndexOf(services, row.owner);
      OwnedKeyIsLocal(services, i, key);
      PushKeepsConsistent(services, i, SpecOf(key, row));
      PushScopeTable(services, i, SpecOf(key, row));
      SameServiceTable(services, PushAt(services, i, SpecOf(key, row)));
    }
  }

  ghost predicate SoundRecords(rows: seq<ScopeRecord>) {
    forall i :: 0 <= i < |rows| ==> IsScopeKey(rows[i].0) && ServiceSegment(rows[i].0) == rows[i].1.owner
  }

  ghost predicate OwnersIn(rows: seq<ScopeRecord>, table: map<string, ServiceRow>) {
    forall i :: 0 <= i < |rows| ==> rows[i].1.owner in table
  }

  lemma OwnersInSnoc(rows: seq<ScopeRecord>, table: map<string, ServiceRow>)
    requires rows != []
    ensures OwnersIn(rows, table) <==>
            OwnersIn(rows[..|rows| - 1], table) && rows[|rows| - 1].1.owner in table
  {}

  lemma {:induction false} AttachedTable(services: seq<RegisteredService>, rows: seq<ScopeRecord>)
    requires Consistent(services) && ScopeTable(services) == map[]
    requires DistinctRows(rows) && SoundRecords(rows)
    ensures AttachScopes(services, rows).Ok? <==> OwnersIn(rows, ServiceTable(services))
    ensures AttachScopes(services, rows).Ok? ==>
              var grouped := AttachScopes(services, rows).value;
              && Consistent(grouped)
              && ServiceTable(grouped) == ServiceTable(services)
              && ScopeTable(grouped) == FromRows(rows)
  {
    if rows != [] {
      var n := |rows| - 1;
      AttachedTable(services, rows[..n]);
      OwnersInSnoc(rows, ServiceTable(services));
      FromRowsAt(rows[..n], rows[n].0);
      var before := AttachScopes(services, rows[..n]);
      if before.Ok? {
        assert IsScopeKey(rows[n].0) && ServiceSegment(rows[n].0) == rows[n].1.owner;
        AttachOne(before.value, rows[n]);
      }
    }
  }

  /** A load whose two table reads saw `services` and `scopes`, possibly at different times.
      It fails exactly when a scope row was read whose owner was not among the services
      read before it; otherwise it rebuilds precisely the rows it saw. */
  lemma LoadRebuilds(version: nat, serviceRows: seq<ServiceRecord>, scopeRows: seq<ScopeRecord>, seen: Tables)
    requires Enumerates(serviceRows, seen.services) && Enumerates(scopeRows, seen.scopes)
    requires forall k :: k in seen.services ==> IsServiceKey(k)
    requires forall k :: k in seen.scopes ==> IsScopeKey(k)
    requires PrefixOwned(seen)
    ensures var loaded := LoadOf(version, serviceRows, scopeRows);
            && (loaded.Some? <==> forall k :: k in seen.scopes ==> seen.scopes[k].owner in seen.services)
            && (loaded.Some? ==>
                  && loaded.value.version == version
                  && Consistent(loaded.value.services)
                  && TablesOf(loaded.value.services) == seen)
  {
    forall i | 0 <= i < |serviceRows|
      ensures IsServiceKey(serviceRows[i].0)
    {
      FromRowsAt(serviceRows, serviceRows[i].0);
    }
    ParsedTable(serviceRows);
    var services := ParseServices(serviceRows).value;
    forall i | 0 <= i < |scopeRows|
      ensures scopeRows[i].0 in seen.scopes && seen.scopes[scopeRows[i].0] == scopeRows[i].1
    {
      RowIsStored(scopeRows, i);
    }
    forall k | k in seen.scopes
      ensures exists i :: 0 <= i < |scopeRows| && scopeRows[i].0 == k
    {
      FromRowsAt(scopeRows, k);
    }
    AttachedTable(services, scopeRows);
  }

  lemma {:induction false} RowIsStored<R>(rows: seq<(string, R)>, i: nat)
    requires DistinctRows(rows) && i < |rows|
    ensures rows[i].0 in FromRows(rows) && FromRows(rows)[rows[i].0] == rows[i].1
  {
    if i < |rows| - 1 {
      RowIsStored(rows[..|rows| - 1], i);
    }
  }

  // ----- up to order -----

  /** The same services with the same metadata and the same scopes, in whatever order. */
  ghost predicate SameUpToOrder(a: seq<RegisteredService>, b: seq<RegisteredService>) {
    && |a| == |b|
    && forall i :: 0 <= i < |a| ==>
         && HasService(b, a[i].manifest.key)
         && var twin := b[IndexOf(b, a[i].manifest.key)];
            twin.manifest == a[i].manifest && multiset(twin.scopes) == multiset(a[i].scopes)
  }

  /** The rows of a consistent registry hydrate back to it, up to order. */
  lemma StoredRowsHydrateBack(registry: RegistryState, serviceRows: seq<ServiceRecord>, scopeRows: seq<ScopeRecord>)
    requires Consistent(registry.services) && Sound(TablesOf(registry.services))
    requires Enumerates(serviceRows, ServiceTable(registry.services))
    requires Enumerates(scopeRows, ScopeTable(registry.services))
    ensures var loaded := LoadOf(registry.version, serviceRows, scopeRows);
            && loaded.Some?
            && loaded.value.version == registry.version
            && SameUpToOrder(registry.services, loaded.value.services)
  {
    LoadRebuilds(registry.version, serviceRows, scopeRows, TablesOf(registry.services));
    var loaded := LoadOf(registry.version, serviceRows, scopeRows).value;
    SameTablesSameLists(registry.services, loaded.services);
  }

  lemma SameTablesSameLists(a: seq<RegisteredService>, b: seq<RegisteredService>)
    requires Consistent(a) && Consistent(b) && TablesOf(a) == TablesOf(b)
    ensures SameUpToOrder(a, b)
  {
    ServiceTableAt(a);
    ServiceTableAt(b);
    SameLength(a, b);
    forall i | 0 <= i < |a|
      ensures HasService(b, a[i].manifest.key)
      ensures b[IndexOf(b, a[i].manifest.key)].manifest == a[i].manifest
      ensures multiset(b[IndexOf(b, a[i].manifest.key)].scopes) == multiset(a[i].scopes)
    {
      assert a[i].manifest.key in ServiceTable(a);
      var j := IndexOf(b, a[i].manifest.key);
      assert ServiceTable(b)[b[j].manifest.key] == RowOfService(b[j].manifest);
      SameScopes(a, i, b, j);
    }
  }

  lemma {:induction false} ServiceTableSize(services: seq<RegisteredService>)
    requires DistinctServices(services)
    ensures |ServiceTable(services)| == |services|
  {
    if services != [] {
      var n := |services| - 1;
      ServiceTableSize(services[..n]);
      ServiceTableAt(services[..n]);
      var i := IndexOf(services[..n], services[n].manifest.key);
      assert services[n].manifest.key !in ServiceTable(services[..n]);
    }
  }

  lemma SameLength(a: seq<RegisteredService>, b: seq<RegisteredService>)
    requires DistinctServices(a) && DistinctServices(b) && ServiceTable(a) == ServiceTable(b)
    ensures |a| == |b|
  {
    ServiceTableSize(a);
    ServiceTableSize(b);
  }

  /** The row of a listed scope. */
  lemma {:induction false} ListedRow(services: seq<RegisteredService>, i: nat, a: nat)
    requires Consistent(services) && i < |services| && a < |services[i].scopes|
    ensures var spec := services[i].scopes[a];
            spec.key in ScopeTable(services)
            && ScopeTable(services)[spec.key] == RowOfSpec(services[i].manifest.key, spec)
  {
    var n := |services| - 1;
    var spec := services[i].scopes[a];
    assert IsOwnedBy(spec.key, services[i].manifest.key);
    SpecRow(services[i].manifest.key, services[i].scopes, a);
    if i < n {
      assert Consistent(services[..n]);
      ListedRow(services[..n], i, a);
      ForeignKeyAbsent(services, n, spec.key);
    }
  }

  lemma ScopeListed(a: seq<RegisteredService>, i: nat, b: seq<RegisteredService>, j: nat, x: nat)
    requires Consistent(a) && Consistent(b) && ScopeTable(a) == ScopeTable(b)
    requires i < |a| && j < |b| && a[i].manifest.key == b[j].manifest.key && x < |a[i].scopes|
    ensures a[i].scopes[x] in b[j].scopes
  {
    var spec := a[i].scopes[x];
    ListedRow(a, i, x);
    assert IsOwnedBy(spec.key, a[i].manifest.key);
    OwnedKeyIsLocal(b, j, spec.key);
    var y :| 0 <= y < |b[j].scopes| && b[j].scopes[y].key == spec.key;
    ListedRow(b, j, y);
    assert b[j].scopes[y] == spec;
  }

  lemma SameScopes(a: seq<RegisteredService>, i: nat, b: seq<RegisteredService>, j: nat)
    requires Consistent(a) && Consistent(b) && ScopeTable(a) == ScopeTable(b)
    requires i < |a| && j < |b| && a[i].manifest.key == b[j].manifest.key
    ensures multiset(a[i].scopes) == multiset(b[j].scopes)
  {
    forall spec ensures multiset(a[i].scopes)[spec] == multiset(b[j].scopes)[spec] {
      DistinctOnce(a[i].scopes, spec);
      DistinctOnce(b[j].scopes, spec);
      if spec in a[i].scopes {
        var x :| 0 <= x < |a[i].scopes| && a[i].scopes[x] == spec;
        ScopeListed(a, i, b, j, x);
      }
      if spec in b[j].scopes {
        var y :| 0 <= y < |b[j].scopes| && b[j].scopes[y] == spec;
        ScopeListed(b, j, a, i, y);
      }
    }
  }

  lemma {:induction false} DistinctOnce(specs: seq<ScopeSpec>, spec: ScopeSpec)
    requires DistinctKeys(specs)
    ensures multiset(specs)[spec] == if spec in specs then 1 else 0
  {
    if specs != [] {
      var n := |specs| - 1;
      DistinctOnce(specs[..n], spec);
      assert specs == specs[..n] + [specs[n]];
    }
  }

  // ----- save -----

  datatype Db = Db(head: Option<nat>, tables: Tables)

  datatype SaveOutcome =
    | Persisted
    | VersionConflict
    | ScopeConflict(scopeKey: string, owner: string)

  /** An insert that leaves an existing row alone. */
  function InsertIfAbsent<R>(table: map<string, R>, key: string, row: R): map<string, R> {
    if key in table then table else table[key := row]
  }

  /** Writes the scopes of one service; a key stored under another owner is a conflict. */
  function WriteScopes(
      scopes: map<string, ScopeRow>, owner: ServiceKey, specs: seq<ScopeSpec>): Result<map<string, ScopeRow>, string> {
    if specs == [] then Ok(scopes)
    else
      var spec := specs[|specs| - 1];
      match WriteScopes(scopes, owner, specs[..|specs| - 1])
      case Err(key) => Err(key)
      case Ok(written) =>
        if spec.key in written && written[spec.key].owner != owner then Err(spec.key)
        else Ok(InsertIfAbsent(written, spec.key, RowOfSpec(owner, spec)))
  }

  function WriteService(t: Tables, service: RegisteredService): Result<Tables, string> {
    match WriteScopes(t.scopes, service.manifest.key, service.scopes)
    case Err(key) => Err(key)
    case Ok(scopes) =>
      Ok(Tables(InsertIfAbsent(t.services, service.manifest.key, RowOfService(service.manifest)), scopes))
  }

  function WriteServices(t: Tables, services: seq<RegisteredService>): Result<Tables, string> {
    if services == [] then Ok(t)
    else
      match WriteServices(t, services[..|services| - 1])
      case Err(key) => Err(key)
      case Ok(written) => WriteService(written, services[|services| - 1])
  }

  function ClassifyConflict(t: Tables, key: string): SaveOutcome {
    if key in t.scopes then ScopeConflict(key, t.scopes[key].owner) else VersionConflict
  }

  /** The compare-and-set transaction: one atomic step on the head and both tables. */
  function SaveStep(db: Db, registry: RegistryState, loadedVersion: nat): (Db, Result<SaveOutcome, AppError>) {
    if db.head != Some(loadedVersion) then
      (db, if db.head.Some? then Ok(VersionConflict) else Err(MissingRegistryHead))
    else
      match WriteServices(db.tables, registry.services)
      case Ok(written) => (Db(Some(registry.version), written), Ok(Persisted))
      case Err(key) => (db, Ok(ClassifyConflict(db.tables, key)))
  }

  class ScopeRegistryRepository {
    var head: Option<nat>
    var tables: Tables

    constructor (db: Db)
      ensures Value() == db
    {
      head, tables := db.head, db.tables;
    }

    function Value(): Db
      reads this
    {
      Db(head, tables)
    }

    method Save(registry: RegistryState, loadedVersion: nat) returns (r: Result<SaveOutcome, AppError>)
      modifies this
      ensures (Value(), r) == SaveStep(old(Value()), registry, loadedVersion)
    {
      var before := Value();
      if head != Some(loadedVersion) {
        return if head.Some? then Ok(VersionConflict) else Err(MissingRegistryHead);
      }
      head := Some(registry.version);
      for i := 0 to |registry.services|
        invariant head == Some(registry.version)
        invariant WriteServices(before.tables, registry.services[..i]) == Ok(tables)
      {
        assert registry.services[..i + 1][..i] == registry.services[..i];
        var conflict := WriteOneService(registry.services[i]);
        if conflict.Some? {
          WriteConflictStays(before.tables, registry.services, i + 1);
          head, tables := before.head, before.tables;
          return Ok(ClassifyConflict(tables, conflict.value));
        }
      }
      assert registry.services[..|registry.services|] == registry.services;
      return Ok(Persisted);
    }

    /** Writes one service and its scopes; on a conflict the caller rolls back. */
    method WriteOneService(service: RegisteredService) returns (conflict: Option<string>)
      modifies this`tables
      ensures match WriteService(old(tables), service)
              case Ok(written) => conflict.None? && tables == written
              case Err(key) => conflict == Some(key)
    {
      var owner := service.manifest.key;
      tables := tables.(services := InsertIfAbsent(tables.services, owner, RowOfService(service.manifest)));
      for i := 0 to |service.scopes|
        invariant tables.services == InsertIfAbsent(old(tables).services, owner, RowOfService(service.manifest))
        invariant WriteScopes(old(tables).scopes, owner, service.scopes[..i]) == Ok(tables.scopes)
      {
        var spec := service.scopes[i];
        assert service.scopes[..i + 1][..i] == service.scopes[..i];
        if spec.key in tables.scopes && tables.scopes[spec.key].owner != owner {
          ScopeConflictStays(old(tables).scopes, owner, service.scopes, i + 1);
          return Some(spec.key);
        }
        tables := tables.(scopes := InsertIfAbsent(tables.scopes, spec.key, RowOfSpec(owner, spec)));
      }
      assert service.scopes[..|service.scopes|] == service.scopes;
      return None;
    }
  }

  lemma {:induction false} WriteConflictStays(t: Tables, services: seq<RegisteredService>, n: nat)
    requires n <= |services| && WriteServices(t, services[..n]).Err?
    ensures WriteServices(t, services) == WriteServices(t, services[..n])
  {
    if n == |services| {
      assert services[..n] == services;
    } else {
      assert services[..|services| - 1][..n] == services[..n];
      WriteConflictStays(t, services[..|services| - 1], n);
    }
  }

  lemma {:induction false} ScopeConflictStays(
      scopes: map<string, ScopeRow>, owner: ServiceKey, specs: seq<ScopeSpec>, n: nat)
    requires n <= |specs| && WriteScopes(scopes, owner, specs[..n]).Err?
    ensures WriteScopes(scopes, owner, specs) == WriteScopes(scopes, owner, specs[..n])
  {
    if n == |specs| {
      assert specs[..n] == specs;
    } else {
      assert specs[..|specs| - 1][..n] == specs[..n];
      ScopeConflictStays(scopes, owner, specs[..|specs| - 1], n);
    }
  }

  // ----- what a save writes -----

  /** A spec whose key is stored under another owner. */
  ghost predicate Clashes(scopes: map<string, ScopeRow>, owner: ServiceKey, key: ScopeKey) {
    key in scopes && scopes[key].owner != owner
  }

  ghost predicate NoneClashes(scopes: map<string, ScopeRow>, owner: ServiceKey, specs: seq<ScopeSpec>) {
    forall i :: 0 <= i < |specs| ==> !Clashes(scopes, owner, specs[i].key)
  }

  /** The scopes of a service are written unless one clashes, and the conflict names one that does. */
  lemma {:induction false} WriteScopesIff(scopes: map<string, ScopeRow>, owner: ServiceKey, specs: seq<ScopeSpec>)
    requires WellFormed(owner, specs)
    ensures WriteScopes(scopes, owner, specs).Ok? <==> NoneClashes(scopes, owner, specs)
    ensures WriteScopes(scopes, owner, specs).Ok? ==>
              WriteScopes(scopes, owner, specs).value == SpecTable(owner, specs) + scopes
    ensures WriteScopes(scopes, owner, specs).Err? ==>
              var key := WriteScopes(scopes, owner, specs).error;
              key in Keys(specs) && Clashes(scopes, owner, key)
  {
    if specs == [] {
      assert SpecTable(owner, specs) + scopes == scopes;
    } else {
      var before, spec := specs[..|specs| - 1], specs[|specs| - 1];
      assert specs == before + [spec];
      WellFormedSnoc(owner, before, spec);
      WriteScopesIff(scopes, owner, before);
      SpecTableAt(owner, before);
      assert NoneClashes(scopes, owner, specs) <==>
             NoneClashes(scopes, owner, before) && !Clashes(scopes, owner, spec.key) by {
        assert forall i :: 0 <= i < |before| ==> before[i] == specs[i];
      }
      if spec.key in scopes {
        UpdateShadowed(SpecTable(owner, before), scopes, spec.key, RowOfSpec(owner, spec));
      } else {
        UpdateLeft(SpecTable(owner, before), scopes, spec.key, RowOfSpec(owner, spec));
      }
    }
  }

  lemma MergeAssoc<K, V>(a: map<K, V>, b: map<K, V>, c: map<K, V>)
    requires a.Keys !! b.Keys
    ensures a + (b + c) == (b + a) + c
  {}

  lemma InsertMerges<R>(table: map<string, R>, stored: map<string, R>, key: string, row: R)
    requires key !in table
    ensures InsertIfAbsent(table + stored, key, row) == table[key := row] + stored
  {}

  ghost predicate Writable(t: Tables, services: seq<RegisteredService>) {
    forall i :: 0 <= i < |services| ==> NoneClashes(t.scopes, services[i].manifest.key, services[i].scopes)
  }

  /** The key is declared by a service of the registry and stored under another owner. */
  ghost predicate IsConflict(t: Tables, services: seq<RegisteredService>, key: ScopeKey) {
    exists i :: 0 <= i < |services| && key in Keys(services[i].scopes)
                && Clashes(t.scopes, services[i].manifest.key, key)
  }

  /** A consistent registry is written exactly if none of its scopes is stored under another owner;
      stored rows then win over the registry's, and otherwise the conflict names such a scope. */
  lemma {:induction false} WriteIff(t: Tables, services: seq<RegisteredService>)
    requires Consistent(services)
    ensures WriteServices(t, services).Ok? <==> Writable(t, services)
    ensures WriteServices(t, services).Ok? ==>
              WriteServices(t, services).value
              == Tables(ServiceTable(services) + t.services, ScopeTable(services) + t.scopes)
    ensures WriteServices(t, services).Err? ==> IsConflict(t, services, WriteServices(t, services).error)
  {
    if services == [] {
      assert ServiceTable(services) + t.services == t.services;
      assert ScopeTable(services) + t.scopes == t.scopes;
    } else {
      var n: nat := |services| - 1;
      var before, last := services[..n], services[n];
      assert Consistent(before) && forall i :: 0 <= i < n ==> before[i] == services[i];
      WriteIff(t, before);
      if WriteServices(t, before).Ok? {
        WriteLast(t, services);
      } else {
        var key := WriteServices(t, before).error;
        var i :| 0 <= i < n && key in Keys(before[i].scopes) && Clashes(t.scopes, before[i].manifest.key, key);
        assert key in Keys(services[i].scopes);
        assert !Writable(t, before);
      }
    }
  }

  lemma WriteLast(t: Tables, services: seq<RegisteredService>)
    requires Consistent(services) && services != []
    ensures var before, last := services[..|services| - 1], services[|services| - 1];
            var written :=
              WriteService(Tables(ServiceTable(before) + t.services, ScopeTable(before) + t.scopes), last);
            && (written.Ok? <==> NoneClashes(t.scopes, last.manifest.key, last.scopes))
            && (written.Ok? ==>
                  written.value == Tables(ServiceTable(services) + t.services, ScopeTable(services) + t.scopes))
            && (written.Err? ==>
                  written.error in Keys(last.scopes) && Clashes(t.scopes, last.manifest.key, written.error))
  {
    var n := |services| - 1;
    var before, last := services[..n], services[n];
    WriteScopesIff(ScopeTable(before) + t.scopes, last.manifest.key, last.scopes);
    LastKeysAreNew(services);
    SpecTableAt(last.manifest.key, last.scopes);
    forall key | key in Keys(last.scopes)
      ensures Clashes(ScopeTable(before) + t.scopes, last.manifest.key, key)
              <==> Clashes(t.scopes, last.manifest.key, key)
    {
      assert key in SpecTable(last.manifest.key, last.scopes);
    }
    forall i | 0 <= i < |last.scopes|
      ensures last.scopes[i].key in Keys(last.scopes)
    {}
    MergeAssoc(SpecTable(last.manifest.key, last.scopes), ScopeTable(before), t.scopes);
    InsertMerges(ServiceTable(before), t.services, last.manifest.key, RowOfService(last.manifest));
  }

  /** Saving a consistent registry into prefix-owned rows never conflicts. */
  lemma WriteMerges(t: Tables, services: seq<RegisteredService>)
    requires Consistent(services) && PrefixOwned(t)
    ensures WriteServices(t, services)
            == Ok(Tables(ServiceTable(services) + t.services, ScopeTable(services) + t.scopes))
  {
    WriteIff(t, services);
    forall i, a | 0 <= i < |services| && 0 <= a < |services[i].scopes|
      ensures !Clashes(t.scopes, services[i].manifest.key, services[i].scopes[a].key)
    {
      assert IsOwnedBy(services[i].scopes[a].key, services[i].manifest.key);
    }
  }

  /** What a save of a consistent registry answers, on any rows: no head is an error, a moved head a
      conflict of versions, a scope stored under another owner a conflict that names the scope and
      that owner, and anything else is persisted. */
  lemma SaveAnswers(db: Db, registry: RegistryState, loadedVersion: nat)
    requires Consistent(registry.services)
    ensures var (after, r) := SaveStep(db, registry, loadedVersion);
            if db.head.None? then after == db && r == Err(MissingRegistryHead)
            else if db.head.value != loadedVersion then after == db && r == Ok(VersionConflict)
            else if Writable(db.tables, registry.services) then
              && r == Ok(Persisted) && after.head == Some(registry.version)
              && after.tables == Tables(ServiceTable(registry.services) + db.tables.services,
                                        ScopeTable(registry.services) + db.tables.scopes)
            else
              && after == db && r.Ok? && r.value.ScopeConflict?
              && IsConflict(db.tables, registry.services, r.value.scopeKey)
              && r.value.scopeKey in db.tables.scopes && r.value.owner == db.tables.scopes[r.value.scopeKey].owner
  {
    WriteIff(db.tables, registry.services);
  }

  lemma LastKeysAreNew(services: seq<RegisteredService>)
    requires Consistent(services) && services != []
    ensures var n := |services| - 1;
            && services[n].manifest.key !in ServiceTable(services[..n])
            && SpecTable(services[n].manifest.key, services[n].scopes).Keys !! ScopeTable(services[..n]).Keys
  {
    var n := |services| - 1;
    var before := services[..n];
    var specs := SpecTable(services[n].manifest.key, services[n].scopes);
    ServiceTableAt(before);
    forall k | k in specs
      ensures k !in ScopeTable(before)
    {
      SpecTableAt(services[n].manifest.key, services[n].scopes);
      OwnerIsPrefix(services, n, k);
      ScopeTableAt(before, k);
    }
  }

  /** Nothing but a persisted save changes the database. */
  lemma OnlyPersistedWrites(db: Db, registry: RegistryState, loadedVersion: nat)
    ensures SaveStep(db, registry, loadedVersion).1 != Ok(Persisted) ==> SaveStep(db, registry, loadedVersion).0 == db
  {}

  /** Saving the outcome of a registration on the rows as they are now is `Declare`. */
  lemma SaveOfFreshLoad(db: Db, registry: RegistryState, d: ScopeDeclaration)
    requires Consistent(registry.services) && PrefixOwned(db.tables)
    requires TablesOf(registry.services) == db.tables && db.head == Some(registry.version)
    ensures var (after, r) := SaveStep(db, Register(registry, d).0, registry.version);
            && r == Ok(Persisted)
            && after.tables == Declare(db.tables, d)
            && after.head == Some(registry.version + if Declare(db.tables, d) == db.tables then 0 else 1)
  {
    ConsistentNeverRefuses(registry, d);
    RegisterKeepsConsistent(registry, d);
    RegisterIsDeclare(registry, d);
    VersionMovesWithTables(registry, d);
    WriteMerges(db.tables, Register(registry, d).0.services);
    DeclareTwice(db.tables, d);
  }

  lemma DeclareTwice(t: Tables, d: ScopeDeclaration)
    ensures Tables(Declare(t, d).services + t.services, Declare(t, d).scopes + t.scopes) == Declare(t, d)
  {}
}
