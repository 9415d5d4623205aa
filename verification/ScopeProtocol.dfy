/** Scope registration under the optimistic lock, with any number of handlers interleaving.
    A handler is the retry loop of the pipeline, cut at its database and broker calls: three
    separate reads, one compare-and-set, one confirmation. Requesters run the handshake
    against the same broker. A run is any sequence of enabled steps. */
module ScopeProtocol {
  import opened Wrappers
  import opened ScopeKeys
  import opened Declarations
  import opened Registry
  import opened RegistryTables
  import opened RegistryStore

  const MAX_ATTEMPTS: nat := 5
  const UNREPRESENTABLE_SERVICE: string := "unrepresentable_service"

  type CommandId = nat
  type HandlerId = nat

  datatype Reply =
    | Accepted(service: ServiceKey)
    | Rejected(service: ServiceKey, reason: DeclarationError)

  datatype Confirmation = Confirmation(command: CommandId, reply: Reply)

  datatype HandleResult =
    | Answered(reply: Reply)
    | ConflictRetriesExhausted(attempts: nat)
    | Failed

  datatype Phase =
    | AtHead
    | AtServices(version: nat)
    | AtScopes(version: nat, services: seq<ServiceRecord>)
    | AtSave(loadedVersion: nat, registry: RegistryState, service: ServiceKey)
    | AtConfirm(reply: Reply)
    | Done(result: HandleResult)

  /** `startHead` records the head version when the call began; only claims read it. */
  datatype Handler = Handler(command: CommandId, startHead: nat, lost: nat, phase: Phase)

  datatype DeclareOutcome =
    | DeclarationAccepted
    | DeclarationRejected(reason: DeclarationError)
    | Disabled

  datatype Requester = Requester(declaration: ScopeDeclaration, ready: bool, outcome: Option<DeclareOutcome>)

  datatype System = System(
    db: Db,
    commands: map<CommandId, RawDeclaration>,
    handlers: map<HandlerId, Handler>,
    confirmations: seq<Confirmation>,
    requesters: map<CommandId, Requester>)

  datatype Step =
    | StartDeclaring(id: CommandId, declaration: ScopeDeclaration, enabled: bool)
    | PublishCommand(id: CommandId)
    | SendRaw(id: CommandId, raw: RawDeclaration)
    | Deliver(h: HandlerId, id: CommandId)
    | ReadHead(h: HandlerId)
    | ReadServices(h: HandlerId, serviceRows: seq<ServiceRecord>)
    | ReadScopes(h: HandlerId, scopeRows: seq<ScopeRecord>)
    | Save(h: HandlerId)
    | Confirm(h: HandlerId, reaches: bool, acknowledged: bool)
    | Crash(h: HandlerId)
    | Receive(id: CommandId, index: nat, decodes: bool)

  // ----- the steps -----

  predicate At(s: System, h: HandlerId, phase: Phase -> bool) {
    h in s.handlers && phase(s.handlers[h].phase)
  }

  ghost predicate Enabled(s: System, step: Step) {
    match step
    case StartDeclaring(id, declaration, _) =>
      id !in s.requesters && id !in s.commands && KeysParsed(declaration)
    case PublishCommand(id) => id in s.requesters && s.requesters[id].outcome.None?
    case SendRaw(id, _) => id !in s.requesters && id !in s.commands
    case Deliver(h, id) => h !in s.handlers && id in s.commands
    case ReadHead(h) => At(s, h, (p: Phase) => p.AtHead?)
    case ReadServices(h, rows) => At(s, h, (p: Phase) => p.AtServices?) && Enumerates(rows, s.db.tables.services)
    case ReadScopes(h, rows) => At(s, h, (p: Phase) => p.AtScopes?) && Enumerates(rows, s.db.tables.scopes)
    case Save(h) => At(s, h, (p: Phase) => p.AtSave?)
    case Confirm(h, reaches, acknowledged) => At(s, h, (p: Phase) => p.AtConfirm?) && (acknowledged ==> reaches)
    case Crash(h) => h in s.handlers
    case Receive(id, index, _) =>
      && id in s.requesters && s.requesters[id].outcome.None?
      && index < |s.confirmations| && s.confirmations[index].command == id
  }

  /** The service named in a rejection: the raw key if it is a key at all. */
  function ReplyService(raw: RawDeclaration): ServiceKey {
    if IsServiceKey(raw.manifest.key) then raw.manifest.key else UNREPRESENTABLE_SERVICE
  }

  /** Judging a loaded registry: what the handler does between its load and its save. */
  ghost function Judge(registry: RegistryState, raw: RawDeclaration): Phase {
    match Validate(raw)
    case Err(reason) => AtConfirm(Rejected(ReplyService(raw), reason))
    case Ok(d) =>
      match Register(registry, d)
      case (_, Err(reason)) => AtConfirm(Rejected(d.manifest.key, reason))
      case (updated, Ok(_)) => AtSave(registry.version, updated, d.manifest.key)
  }

  ghost function AfterLoad(handler: Handler, raw: RawDeclaration, scopeRows: seq<ScopeRecord>): Phase
    requires handler.phase.AtScopes?
  {
    match LoadOf(handler.phase.version, handler.phase.services, scopeRows)
    case None => Done(Failed)
    case Some(registry) => Judge(registry, raw)
  }

  function AfterSave(handler: Handler, outcome: Result<SaveOutcome, AppError>): Handler
    requires handler.phase.AtSave?
  {
    var service := handler.phase.service;
    match outcome
    case Err(_) => handler.(phase := Done(Failed))
    case Ok(Persisted) => handler.(phase := AtConfirm(Accepted(service)))
    case Ok(ScopeConflict(key, owner)) =>
      handler.(phase := AtConfirm(Rejected(service, ScopeOwnedByAnotherService(key, owner))))
    case Ok(VersionConflict) =>
      if handler.lost + 1 < MAX_ATTEMPTS
      then handler.(lost := handler.lost + 1, phase := AtHead)
      else handler.(lost := handler.lost + 1, phase := Done(ConflictRetriesExhausted(MAX_ATTEMPTS)))
  }

  /** The requester's reading of a correlated event: an acceptance needs no decoding, an
      undecodable rejection is passed over. */
  function ResolveMatch(requester: Requester, reply: Reply, decodes: bool): Requester {
    match reply
    case Accepted(_) => requester.(ready := true, outcome := Some(DeclarationAccepted))
    case Rejected(_, reason) =>
      if decodes then requester.(ready := false, outcome := Some(DeclarationRejected(reason)))
      else requester
  }

  ghost function Apply(s: System, step: Step): System
    requires Enabled(s, step)
  {
    match step
    case StartDeclaring(id, declaration, enabled) =>
      s.(requesters := s.requesters[id := Requester(declaration, !enabled, if enabled then None else Some(Disabled))])
    case PublishCommand(id) => s.(commands := s.commands[id := Raw(s.requesters[id].declaration)])
    case SendRaw(id, raw) => s.(commands := s.commands[id := raw])
    case Deliver(h, id) =>
      s.(handlers := s.handlers[h := Handler(id, if s.db.head.Some? then s.db.head.value else 0, 0, AtHead)])
    case ReadHead(h) =>
      Moved(s, h, if s.db.head.Some? then AtServices(s.db.head.value) else Done(Failed))
    case ReadServices(h, rows) => Moved(s, h, AtScopes(s.handlers[h].phase.version, rows))
    case ReadScopes(h, rows) =>
      if s.handlers[h].command in s.commands
      then Moved(s, h, AfterLoad(s.handlers[h], s.commands[s.handlers[h].command], rows))
      else s
    case Save(h) =>
      var (db, outcome) := SaveStep(s.db, s.handlers[h].phase.registry, s.handlers[h].phase.loadedVersion);
      s.(db := db, handlers := s.handlers[h := AfterSave(s.handlers[h], outcome)])
    case Confirm(h, reaches, acknowledged) =>
      var reply := s.handlers[h].phase.reply;
      var sent := if reaches then s.confirmations + [Confirmation(s.handlers[h].command, reply)] else s.confirmations;
      Moved(s, h, Done(if acknowledged then Answered(reply) else Failed)).(confirmations := sent)
    case Crash(h) => s.(handlers := s.handlers - {h})
    case Receive(id, index, decodes) =>
      s.(requesters := s.requesters[id := ResolveMatch(s.requesters[id], s.confirmations[index].reply, decodes)])
  }

  function Moved(s: System, h: HandlerId, phase: Phase): System
    requires h in s.handlers
  {
    s.(handlers := s.handlers[h := s.handlers[h].(phase := phase)])
  }

  /** The states of a run: from `s`, every step enabled where it is taken. */
  ghost predicate IsRun(s: System, steps: seq<Step>)
    decreases |steps|
  {
    steps == [] || (Enabled(s, steps[0]) && IsRun(Apply(s, steps[0]), steps[1..]))
  }

  ghost function After(s: System, steps: seq<Step>): System
    requires IsRun(s, steps)
    decreases |steps|
  {
    if steps == [] then s else After(Apply(s, steps[0]), steps[1..])
  }

  /** A store left by earlier runs, with no call in flight. */
  ghost predicate Init(s: System) {
    && s.db.head.Some? && Sound(s.db.tables)
    && s.commands == map[] && s.handlers == map[] && s.confirmations == [] && s.requesters == map[]
  }

  // ----- the invariant -----

  /** The one reply a command can get: it depends on the command alone. */
  ghost predicate RightReply(s: System, command: CommandId, reply: Reply) {
    && command in s.commands
    && match Validate(s.commands[command])
       case Ok(d) => reply == Accepted(d.manifest.key) && Holds(s.db.tables, d)
       case Err(reason) => reply == Rejected(ReplyService(s.commands[command]), reason)
  }

  /** The registry about to be saved is the declaration registered on the rows as they are. */
  ghost predicate Fresh(tables: Tables, version: nat, updated: RegistryState, d: ScopeDeclaration) {
    exists loaded :: FreshFrom(loaded, tables, version, updated, d)
  }

  ghost predicate FreshFrom(
      loaded: RegistryState, tables: Tables, version: nat, updated: RegistryState, d: ScopeDeclaration) {
    && Consistent(loaded.services) && TablesOf(loaded.services) == tables
    && loaded.version == version && updated == Register(loaded, d).0
  }

  ghost predicate Seen(s: System, handler: Handler, version: nat)
    requires s.db.head.Some?
  {
    handler.startHead + handler.lost <= version <= s.db.head.value
  }

  ghost predicate HandlerInv(s: System, handler: Handler)
    requires s.db.head.Some?
  {
    && handler.command in s.commands
    && handler.startHead + handler.lost <= s.db.head.value
    && match handler.phase
       case AtHead => handler.lost < MAX_ATTEMPTS
       case AtServices(version) => handler.lost < MAX_ATTEMPTS && Seen(s, handler, version)
       case AtScopes(version, rows) =>
         && handler.lost < MAX_ATTEMPTS && Seen(s, handler, version)
         && DistinctRows(rows)
         && (forall k :: k in FromRows(rows) ==> k in s.db.tables.services)
         && (version == s.db.head.value ==> FromRows(rows) == s.db.tables.services)
       case AtSave(version, registry, service) =>
         && handler.lost < MAX_ATTEMPTS && Seen(s, handler, version)
         && Validate(s.commands[handler.command]).Ok?
         && var d := Validate(s.commands[handler.command]).value;
            && service == d.manifest.key
            && (version == s.db.head.value ==> Fresh(s.db.tables, version, registry, d))
       case AtConfirm(reply) => RightReply(s, handler.command, reply)
       case Done(Answered(reply)) => RightReply(s, handler.command, reply)
       case Done(ConflictRetriesExhausted(attempts)) => attempts == MAX_ATTEMPTS == handler.lost
       case Done(Failed) => true
  }

  ghost predicate RequesterInv(s: System, id: CommandId)
    requires id in s.requesters
  {
    var requester := s.requesters[id];
    && KeysParsed(requester.declaration)
    && (id in s.commands ==> s.commands[id] == Raw(requester.declaration))
    && (requester.ready <==> requester.outcome in {Some(DeclarationAccepted), Some(Disabled)})
    && (requester.outcome.Some? ==> !requester.outcome.value.DeclarationRejected?)
    && (requester.outcome == Some(DeclarationAccepted) ==> Holds(s.db.tables, requester.declaration))
  }

  ghost predicate Inv(s: System) {
    && s.db.head.Some? && Sound(s.db.tables)
    && (forall h :: h in s.handlers ==> HandlerInv(s, s.handlers[h]))
    && (forall i :: 0 <= i < |s.confirmations| ==>
          RightReply(s, s.confirmations[i].command, s.confirmations[i].reply))
    && (forall id :: id in s.requesters ==> RequesterInv(s, id))
  }

  lemma InitInv(s: System)
    requires Init(s)
    ensures Inv(s)
  {}

  // ----- what no step undoes -----

  /** Rows only grow, the head never falls, and it stands still only with the rows. */
  ghost predicate Grows(a: System, b: System) {
    && a.db.head.Some? && b.db.head.Some?
    && a.db.head.value <= b.db.head.value
    && SubTables(a.db.tables, b.db.tables)
    && (a.db.head == b.db.head ==> a.db.tables == b.db.tables)
    && (forall id :: id in a.commands ==> id in b.commands && b.commands[id] == a.commands[id])
    && a.confirmations <= b.confirmations
  }

  lemma RightReplyKept(a: System, b: System, command: CommandId, reply: Reply)
    requires Grows(a, b) && RightReply(a, command, reply)
    ensures RightReply(b, command, reply)
  {}

  lemma HandlerKept(a: System, b: System, handler: Handler)
    requires Grows(a, b) && HandlerInv(a, handler)
    ensures HandlerInv(b, handler)
  {}

  /** What a persisted save of declaration `d` does to the database. */
  ghost predicate Declared(before: Db, after: Db, d: ScopeDeclaration) {
    && before.head.Some?
    && after.tables == Declare(before.tables, d)
    && after.head == Some(before.head.value + if after.tables == before.tables then 0 else 1)
  }

  lemma StaleSaveRefused(db: Db, registry: RegistryState, loadedVersion: nat)
    requires db.head.Some? && db.head.value != loadedVersion
    ensures SaveStep(db, registry, loadedVersion) == (db, Ok(VersionConflict))
  {}

  lemma FreshSavePersists(db: Db, registry: RegistryState, loadedVersion: nat, d: ScopeDeclaration)
    requires db.head == Some(loadedVersion) && PrefixOwned(db.tables)
    requires Fresh(db.tables, loadedVersion, registry, d)
    ensures SaveStep(db, registry, loadedVersion).1 == Ok(Persisted)
    ensures Declared(db, SaveStep(db, registry, loadedVersion).0, d)
  {
    hide SaveStep, Register, Declare;
    var loaded :| FreshFrom(loaded, db.tables, loadedVersion, registry, d);
    SaveOfFreshLoad(db, loaded, d);
  }

  ghost function DeclarationOf(s: System, handler: Handler): (d: ScopeDeclaration)
    requires handler.command in s.commands && Validate(s.commands[handler.command]).Ok?
  {
    Validate(s.commands[handler.command]).value
  }

  /** The save step: refused when the head moved since the load, and otherwise it is
      exactly `Declare` on the rows as they are. */
  lemma SaveIsDeclare(s: System, h: HandlerId)
    requires Inv(s) && Enabled(s, Save(h))
    ensures var handler := s.handlers[h];
            && handler.command in s.commands && Validate(s.commands[handler.command]).Ok?
            && var d := DeclarationOf(s, handler);
               var (db, outcome) := SaveStep(s.db, handler.phase.registry, handler.phase.loadedVersion);
               && handler.phase.service == d.manifest.key
               && if handler.phase.loadedVersion == s.db.head.value then
                    && outcome == Ok(Persisted) && Declared(s.db, db, d)
                    && Fresh(s.db.tables, handler.phase.loadedVersion, handler.phase.registry, d)
                  else
                    outcome == Ok(VersionConflict) && db == s.db && handler.phase.loadedVersion < s.db.head.value
  {
    hide SaveStep, Validate, Fresh, Declared;
    var handler := s.handlers[h];
    assert HandlerInv(s, handler);
    if handler.phase.loadedVersion == s.db.head.value {
      FreshSavePersists(s.db, handler.phase.registry, handler.phase.loadedVersion, DeclarationOf(s, handler));
    } else {
      StaleSaveRefused(s.db, handler.phase.registry, handler.phase.loadedVersion);
    }
  }

  lemma ValidatedIsParsed(raw: RawDeclaration)
    requires Validate(raw).Ok?
    ensures KeysParsed(Validate(raw).value)
  {
    ValidateInvertsRaw(raw, Validate(raw).value);
  }

  lemma SaveGrows(s: System, h: HandlerId)
    requires Inv(s) && Enabled(s, Save(h))
    ensures Grows(s, Apply(s, Save(h))) && Sound(Apply(s, Save(h)).db.tables)
    ensures HandlerInv(Apply(s, Save(h)), Apply(s, Save(h)).handlers[h])
  {
    hide SaveStep, Validate, Fresh, Declare, Sound, Holds;
    var handler := s.handlers[h];
    assert HandlerInv(s, handler);
    SaveIsDeclare(s, h);
    var d := DeclarationOf(s, handler);
    ValidatedIsParsed(s.commands[handler.command]);
    assert PrefixOwned(s.db.tables) by { SoundIsPrefixOwned(s.db.tables); }
    HoldsAfterDeclare(s.db.tables, d);
    DeclareKeepsSound(s.db.tables, d);
  }

  lemma SoundIsPrefixOwned(t: Tables)
    requires Sound(t)
    ensures PrefixOwned(t)
  {}

  lemma StepGrows(s: System, step: Step)
    requires Inv(s) && Enabled(s, step)
    ensures Grows(s, Apply(s, step)) && Sound(Apply(s, step).db.tables)
  {
    hide SaveStep, Validate, Sound, AfterLoad, AfterSave, HandlerInv, RightReply;
    match step
    case Save(h) => SaveGrows(s, h);
    case PublishCommand(id) => assert RequesterInv(s, id);
    case _ =>
  }

  // ----- the moved handler, step by step -----

  lemma ReadServicesMoves(s: System, h: HandlerId, rows: seq<ServiceRecord>)
    requires Inv(s) && Enabled(s, ReadServices(h, rows))
    ensures HandlerInv(Apply(s, ReadServices(h, rows)), Apply(s, ReadServices(h, rows)).handlers[h])
  {
    assert HandlerInv(s, s.handlers[h]);
  }

  /** The third read: the load fails exactly when it saw a scope whose owner it had missed;
      otherwise the registry mirrors what was read, which is fresh if the head stood still. */
  lemma ReadScopesLoads(s: System, h: HandlerId, rows: seq<ScopeRecord>)
    requires Inv(s) && Enabled(s, ReadScopes(h, rows))
    ensures var handler := s.handlers[h];
            var loaded := LoadOf(handler.phase.version, handler.phase.services, rows);
            && (loaded.None? <==>
                  exists k :: k in s.db.tables.scopes
                              && s.db.tables.scopes[k].owner !in FromRows(handler.phase.services))
            && (loaded.Some? ==>
                  && loaded.value.version == handler.phase.version
                  && Consistent(loaded.value.services)
                  && TablesOf(loaded.value.services)
                     == Tables(FromRows(handler.phase.services), s.db.tables.scopes))
  {
    var handler := s.handlers[h];
    assert HandlerInv(s, handler);
    LoadRebuilds(handler.phase.version, handler.phase.services, rows,
                 Tables(FromRows(handler.phase.services), s.db.tables.scopes));
  }

  lemma JudgeMoves(s: System, handler: Handler, registry: RegistryState)
    requires Inv(s) && HandlerInv(s, handler) && handler.phase.AtScopes?
    requires Consistent(registry.services) && registry.version == handler.phase.version
    requires registry.version == s.db.head.value ==> TablesOf(registry.services) == s.db.tables
    ensures HandlerInv(s, handler.(phase := Judge(registry, s.commands[handler.command])))
  {
    var raw := s.commands[handler.command];
    if Validate(raw).Ok? {
      var d := Validate(raw).value;
      ConsistentNeverRefuses(registry, d);
      if registry.version == s.db.head.value {
        assert FreshFrom(registry, s.db.tables, registry.version, Register(registry, d).0, d);
      }
    }
  }

  lemma ReadScopesMoves(s: System, h: HandlerId, rows: seq<ScopeRecord>)
    requires Inv(s) && Enabled(s, ReadScopes(h, rows))
    ensures HandlerInv(Apply(s, ReadScopes(h, rows)), Apply(s, ReadScopes(h, rows)).handlers[h])
  {
    var handler := s.handlers[h];
    assert HandlerInv(s, handler);
    ReadScopesLoads(s, h, rows);
    var loaded := LoadOf(handler.phase.version, handler.phase.services, rows);
    if loaded.Some? {
      JudgeMoves(s, handler, loaded.value);
    }
    HandlerKept(s, Apply(s, ReadScopes(h, rows)), Apply(s, ReadScopes(h, rows)).handlers[h]);
  }

  lemma OtherMoves(s: System, step: Step, h: HandlerId)
    requires Inv(s) && Enabled(s, step) && h in Apply(s, step).handlers
    requires !step.ReadServices? && !step.ReadScopes? && !step.Save?
    requires h in s.handlers ==> Apply(s, step).handlers[h] != s.handlers[h]
    ensures HandlerInv(Apply(s, step), Apply(s, step).handlers[h])
  {
    hide SaveStep, Validate, Fresh, Sound, AfterLoad, AfterSave, Raw, RequesterInv;
    if h in s.handlers {
      assert HandlerInv(s, s.handlers[h]);
    }
  }

  lemma MovedHandlerInv(s: System, step: Step, h: HandlerId)
    requires Inv(s) && Enabled(s, step) && h in Apply(s, step).handlers
    requires Grows(s, Apply(s, step))
    ensures HandlerInv(Apply(s, step), Apply(s, step).handlers[h])
  {
    hide SaveStep, Validate, Fresh, Sound, AfterLoad, AfterSave, Raw, RequesterInv, HandlerInv;
    var after := Apply(s, step);
    if h in s.handlers && after.handlers[h] == s.handlers[h] {
      HandlerKept(s, after, s.handlers[h]);
    } else {
      match step
      case ReadServices(_, rows) => ReadServicesMoves(s, h, rows);
      case ReadScopes(_, rows) => ReadScopesMoves(s, h, rows);
      case Save(_) => SaveGrows(s, h);
      case _ => OtherMoves(s, step, h);
    }
  }

  lemma RequesterKept(s: System, step: Step, id: CommandId)
    requires Inv(s) && Enabled(s, step) && id in Apply(s, step).requesters
    requires Grows(s, Apply(s, step))
    ensures RequesterInv(Apply(s, step), id)
  {
    hide SaveStep, Validate, Sound, AfterLoad, AfterSave, HandlerInv;
    var after := Apply(s, step);
    if id in s.requesters {
      assert RequesterInv(s, id);
      var declaration := s.requesters[id].declaration;
      if step.Receive? && step.id == id {
        assert RightReply(s, id, s.confirmations[step.index].reply);
        RoundTrip(declaration);
      }
    }
  }

  lemma StepKeepsInv(s: System, step: Step)
    requires Inv(s) && Enabled(s, step)
    ensures Inv(Apply(s, step))
  {
    var after := Apply(s, step);
    StepGrows(s, step);
    forall h | h in after.handlers
      ensures HandlerInv(after, after.handlers[h])
    {
      MovedHandlerInv(s, step, h);
    }
    forall i | 0 <= i < |after.confirmations|
      ensures RightReply(after, after.confirmations[i].command, after.confirmations[i].reply)
    {
      if i < |s.confirmations| {
        assert after.confirmations[i] == s.confirmations[i];
      } else {
        assert HandlerInv(s, s.handlers[step.h]);
      }
      RightReplyKept(s, after, after.confirmations[i].command, after.confirmations[i].reply);
    }
    forall id | id in after.requesters
      ensures RequesterInv(after, id)
    {
      RequesterKept(s, step, id);
    }
  }

  // ----- whole runs -----

  lemma {:induction false} RunKeepsInv(s: System, steps: seq<Step>)
    requires Inv(s) && IsRun(s, steps)
    ensures Inv(After(s, steps)) && Grows(s, After(s, steps))
    decreases |steps|
  {
    if steps != [] {
      StepKeepsInv(s, steps[0]);
      StepGrows(s, steps[0]);
      RunKeepsInv(Apply(s, steps[0]), steps[1..]);
      GrowsTransitive(s, Apply(s, steps[0]), After(s, steps));
    }
  }

  lemma GrowsTransitive(a: System, b: System, c: System)
    requires Grows(a, b) && Grows(b, c)
    ensures Grows(a, c)
  {}

  /** How many steps of the run changed a table row. */
  ghost function Changes(s: System, steps: seq<Step>): nat
    requires IsRun(s, steps)
    decreases |steps|
  {
    if steps == [] then 0
    else
      var next := Apply(s, steps[0]);
      (if next.db.tables == s.db.tables then 0 else 1) + Changes(next, steps[1..])
  }

  lemma StepCounts(s: System, step: Step)
    requires Inv(s) && Enabled(s, step)
    ensures Apply(s, step).db.head
            == Some(s.db.head.value + if Apply(s, step).db.tables == s.db.tables then 0 else 1)
  {
    hide SaveStep, Validate, HandlerInv, RightReply, RequesterInv, Sound, Fresh, AfterLoad;
    if step.Save? {
      SaveIsDeclare(s, step.h);
    }
  }

  /** The head version counts the steps that changed rows, over every run. */
  lemma {:induction false} HeadCountsChanges(s: System, steps: seq<Step>)
    requires Inv(s) && IsRun(s, steps)
    ensures After(s, steps).db.head == Some(s.db.head.value + Changes(s, steps))
    decreases |steps|
  {
    RunKeepsInv(s, steps);
    if steps != [] {
      StepKeepsInv(s, steps[0]);
      StepCounts(s, steps[0]);
      HeadCountsChanges(Apply(s, steps[0]), steps[1..]);
    }
  }

  /** In every run each persisted save is a registration on the rows committed just before
      it, and a save whose load was torn or overtaken is refused and changes nothing. */
  lemma SavesAreSerial(start: System, steps: seq<Step>, h: HandlerId)
    requires Init(start) && IsRun(start, steps) && Enabled(After(start, steps), Save(h))
    ensures var s := After(start, steps);
            var handler, after := s.handlers[h], Apply(s, Save(h));
            && handler.command in s.commands && Validate(s.commands[handler.command]).Ok?
            && var d := DeclarationOf(s, handler);
               if after.handlers[h].phase == AtConfirm(Accepted(d.manifest.key)) then
                 && Fresh(s.db.tables, handler.phase.loadedVersion, handler.phase.registry, d)
                 && Declared(s.db, after.db, d)
               else
                 && after.db == s.db
                 && s.db.head.Some? && handler.phase.loadedVersion < s.db.head.value
  {
    hide SaveStep, Validate, Fresh, Declared;
    InitInv(start);
    RunKeepsInv(start, steps);
    SaveIsDeclare(After(start, steps), h);
  }

  /** Two confirmations of one command never disagree, whatever was redelivered. */
  lemma ConfirmationsAgree(start: System, steps: seq<Step>, i: nat, j: nat)
    requires Init(start) && IsRun(start, steps)
    requires i < |After(start, steps).confirmations| && j < |After(start, steps).confirmations|
    requires After(start, steps).confirmations[i].command == After(start, steps).confirmations[j].command
    ensures After(start, steps).confirmations[i] == After(start, steps).confirmations[j]
  {
    InitInv(start);
    RunKeepsInv(start, steps);
    var s := After(start, steps);
    assert RightReply(s, s.confirmations[i].command, s.confirmations[i].reply);
    assert RightReply(s, s.confirmations[j].command, s.confirmations[j].reply);
  }

  /** A requester that finished with an acceptance finds its declaration stored, then and in
      every later state; a typed declaration is never rejected; and readiness is up exactly
      on an acceptance or an opt-out. */
  lemma AcceptanceIsDurable(start: System, steps: seq<Step>, more: seq<Step>, id: CommandId)
    requires Init(start) && IsRun(start, steps) && IsRun(After(start, steps), more)
    requires id in After(start, steps).requesters
    ensures var requester := After(start, steps).requesters[id];
            && (requester.outcome == Some(DeclarationAccepted) ==>
                  Holds(After(After(start, steps), more).db.tables, requester.declaration))
            && (requester.outcome.Some? ==> !requester.outcome.value.DeclarationRejected?)
            && (requester.ready <==> requester.outcome in {Some(DeclarationAccepted), Some(Disabled)})
  {
    InitInv(start);
    RunKeepsInv(start, steps);
    var s := After(start, steps);
    assert RequesterInv(s, id);
    RunKeepsInv(s, more);
    if s.requesters[id].outcome == Some(DeclarationAccepted) {
      SubTablesHolds(s.db.tables, After(s, more).db.tables, s.requesters[id].declaration);
    }
  }

  /** Giving up after five lost rounds means that others committed five changes meanwhile. */
  lemma ExhaustionIsPaidFor(start: System, steps: seq<Step>, h: HandlerId)
    requires Init(start) && IsRun(start, steps) && h in After(start, steps).handlers
    requires After(start, steps).handlers[h].phase == Done(ConflictRetriesExhausted(MAX_ATTEMPTS))
    ensures After(start, steps).db.head.Some?
    ensures After(start, steps).db.head.value >= After(start, steps).handlers[h].startHead + 5
  {
    InitInv(start);
    RunKeepsInv(start, steps);
    assert HandlerInv(After(start, steps), After(start, steps).handlers[h]);
  }

  // ----- a torn load in a run -----

  lemma {:induction false} OneMoreStep(s: System, steps: seq<Step>, step: Step)
    requires IsRun(s, steps) && Enabled(After(s, steps), step)
    ensures IsRun(s, steps + [step])
    ensures After(s, steps + [step]) == Apply(After(s, steps), step)
    decreases |steps|
  {
    hide Apply, Enabled;
    if steps == [] {
      assert [step][1..] == [];
      assert steps + [step] == [step];
    } else {
      OneMoreStep(Apply(s, steps[0]), steps[1..], step);
      assert (steps + [step])[1..] == steps[1..] + [step];
    }
  }

  const EMPTY_STORE := System(Db(Some(0), Tables(map[], map[])), map[], map[], [], map[])
  const THE_SPEC := ScopeSpec("a:b", "", "", false)
  const THE_ROW := ScopeRow("a", "", "", false)

  function TheDeclaration(): ScopeDeclaration
  {
    assert IsScopeKey("a:b") && IsOwnedBy("a:b", "a");
    Declaration(ServiceManifest("a", "", ""), [THE_SPEC])
  }

  /** Handler 0 reads the head and the services; handler 1 then reads all three, and both have
      the one command in hand. */
  function BothRead(): seq<Step> {
    [SendRaw(0, Raw(TheDeclaration())), Deliver(0, 0), Deliver(1, 0),
     ReadHead(0), ReadServices(0, []), ReadHead(1), ReadServices(1, [])]
  }

  function Judged(): seq<Step> {
    BothRead() + [ReadScopes(1, [])]
  }

  /** Handler 1 saves, and only then does handler 0 read the scopes. */
  function TornRun(): seq<Step> {
    Judged() + [Save(1)] + [ReadScopes(0, [("a:b", THE_ROW)])]
  }

  lemma BothReadRuns()
    ensures IsRun(EMPTY_STORE, BothRead())
    ensures var s := After(EMPTY_STORE, BothRead());
            && s.db == EMPTY_STORE.db && s.commands == map[0 := Raw(TheDeclaration())]
            && s.handlers == map[0 := Handler(0, 0, 0, AtScopes(0, [])), 1 := Handler(0, 0, 0, AtScopes(0, []))]
  {
    hide Raw, TheDeclaration;
    var steps := BothRead();
    var s := EMPTY_STORE;
    for i := 0 to 7
      invariant IsRun(EMPTY_STORE, steps[..i]) && s == After(EMPTY_STORE, steps[..i])
      invariant s.db == EMPTY_STORE.db && s.requesters == map[]
      invariant i == 0 ==> s == EMPTY_STORE
      invariant i > 0 ==> s.commands == map[0 := Raw(TheDeclaration())]
      invariant s.handlers ==
                match i
                case 0 => map[]
                case 1 => map[]
                case 2 => map[0 := Handler(0, 0, 0, AtHead)]
                case 3 => map[0 := Handler(0, 0, 0, AtHead), 1 := Handler(0, 0, 0, AtHead)]
                case 4 => map[0 := Handler(0, 0, 0, AtServices(0)), 1 := Handler(0, 0, 0, AtHead)]
                case 5 => map[0 := Handler(0, 0, 0, AtScopes(0, [])), 1 := Handler(0, 0, 0, AtHead)]
                case 6 => map[0 := Handler(0, 0, 0, AtScopes(0, [])), 1 := Handler(0, 0, 0, AtServices(0))]
                case _ => map[0 := Handler(0, 0, 0, AtScopes(0, [])), 1 := Handler(0, 0, 0, AtScopes(0, []))]
    {
      OneMoreStep(EMPTY_STORE, steps[..i], steps[i]);
      assert steps[..i + 1] == steps[..i] + [steps[i]];
      s := Apply(s, steps[i]);
    }
    assert steps[..7] == steps;
  }

  lemma DeclaredRows()
    ensures Declare(Tables(map[], map[]), TheDeclaration())
            == Tables(map["a" := ServiceRow("", "")], map["a:b" := THE_ROW])
    ensures KeysParsed(TheDeclaration())
  {
    var d := TheDeclaration();
    assert d.scopes[..0] == [];
    assert SpecTable("a", d.scopes) == map["a:b" := THE_ROW];
  }

  const STORED := Tables(map["a" := ServiceRow("", "")], map["a:b" := THE_ROW])

  /** Handler 1 goes ahead: its load mirrors the empty store, and its save persists. */
  lemma TheOtherJudges()
    ensures IsRun(EMPTY_STORE, Judged())
    ensures var s := After(EMPTY_STORE, Judged());
            && s.db == EMPTY_STORE.db && s.commands == map[0 := Raw(TheDeclaration())]
            && 0 in s.handlers && s.handlers[0] == Handler(0, 0, 0, AtScopes(0, []))
            && 1 in s.handlers && s.handlers[1].command == 0 && s.handlers[1].phase.AtSave?
            && s.handlers[1].phase.loadedVersion == 0
  {
    hide TheDeclaration, Declare, Validate, Raw, Inv, LoadOf, SaveStep, Fresh, Register, BothRead;
    BothReadRuns();
    DeclaredRows();
    var read := After(EMPTY_STORE, BothRead());
    RunIsSafe(BothRead());
    assert Enabled(read, ReadScopes(1, []));
    ReadScopesLoads(read, 1, []);
    RoundTrip(TheDeclaration());
    ConsistentNeverRefuses(LoadOf(0, [], []).value, TheDeclaration());
    OneMoreStep(EMPTY_STORE, BothRead(), ReadScopes(1, []));
  }

  lemma TheOtherSaves()
    ensures var steps := Judged() + [Save(1)];
            && IsRun(EMPTY_STORE, steps)
            && var s := After(EMPTY_STORE, steps);
               && s.db.tables == STORED
               && 0 in s.handlers && s.handlers[0] == Handler(0, 0, 0, AtScopes(0, []))
  {
    hide TheDeclaration, Declare, Validate, Raw, Inv, SaveStep, Fresh, Judged, AfterSave;
    TheOtherJudges();
    DeclaredRows();
    RoundTrip(TheDeclaration());
    RunIsSafe(Judged());
    assert Enabled(After(EMPTY_STORE, Judged()), Save(1));
    SaveIsDeclare(After(EMPTY_STORE, Judged()), 1);
    OneMoreStep(EMPTY_STORE, Judged(), Save(1));
  }

  lemma RunIsSafe(steps: seq<Step>)
    requires IsRun(EMPTY_STORE, steps)
    ensures Init(EMPTY_STORE) && Inv(After(EMPTY_STORE, steps)) && Sound(After(EMPTY_STORE, steps).db.tables)
  {
    InitInv(EMPTY_STORE);
    RunKeepsInv(EMPTY_STORE, steps);
  }

  lemma TheRows()
    ensures Enumerates([("a:b", THE_ROW)], STORED.scopes)
  {
    var rows := [("a:b", THE_ROW)];
    assert rows[..0] == [];
  }

  /** Reading a scope row whose owner the services read before had missed ends the call. */
  lemma MissedOwnerFails(s: System, h: HandlerId, rows: seq<ScopeRecord>, key: string)
    requires Inv(s) && Enabled(s, ReadScopes(h, rows))
    requires key in s.db.tables.scopes
    requires s.db.tables.scopes[key].owner !in FromRows(s.handlers[h].phase.services)
    ensures var after := Apply(s, ReadScopes(h, rows));
            h in after.handlers && after.handlers[h].phase == Done(HandleResult.Failed)
  {
    hide LoadOf;
    assert HandlerInv(s, s.handlers[h]);
    ReadScopesLoads(s, h, rows);
  }

  lemma TornReadFails()
    ensures IsRun(EMPTY_STORE, TornRun())
    ensures var s := After(EMPTY_STORE, TornRun());
            0 in s.handlers && s.handlers[0].phase == Done(HandleResult.Failed)
  {
    hide Inv, Judged, Sound, Apply, Enumerates;
    TheOtherSaves();
    TheRows();
    var steps, rows := Judged() + [Save(1)], [("a:b", THE_ROW)];
    RunIsSafe(steps);
    assert Enabled(After(EMPTY_STORE, steps), ReadScopes(0, rows));
    hide Enabled;
    MissedOwnerFails(After(EMPTY_STORE, steps), 0, rows, "a:b");
    OneMoreStep(EMPTY_STORE, steps, ReadScopes(0, rows));
  }

  /** The store is sound in every state of this run, and handler 0 still ends with an error: it
      read the services before the other handler's commit and the scopes after it. */
  lemma TornLoadExample(n: nat)
    requires n <= |TornRun()|
    ensures Init(EMPTY_STORE) && IsRun(EMPTY_STORE, TornRun()) && IsRun(EMPTY_STORE, TornRun()[..n])
    ensures Sound(After(EMPTY_STORE, TornRun()[..n]).db.tables)
    ensures var s := After(EMPTY_STORE, TornRun());
            0 in s.handlers && s.handlers[0].phase == Done(HandleResult.Failed)
  {
    hide TheDeclaration, Inv, Judged, Sound;
    TornReadFails();
    PrefixRuns(EMPTY_STORE, TornRun(), n);
    RunIsSafe(TornRun()[..n]);
  }

  lemma {:induction false} PrefixRuns(s: System, steps: seq<Step>, n: nat)
    requires IsRun(s, steps) && n <= |steps|
    ensures IsRun(s, steps[..n])
    decreases n
  {
    hide Apply, Enabled;
    if n > 0 {
      PrefixRuns(Apply(s, steps[0]), steps[1..], n - 1);
      assert steps[..n][1..] == steps[1..][..n - 1];
    }
  }
}
