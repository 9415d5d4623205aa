/** What each step of a declaration call leads to, in plain terms, and a whole call end to end:
    a requester that declares, a handler that is not disturbed, and the answer that comes back. */
module ScopeCalls {
  import opened Wrappers
  import opened ScopeKeys
  import opened Declarations
  import opened Registry
  import opened RegistryTables
  import opened RegistryStore
  import opened ScopeProtocol

  // ----- the handler, step by step -----

  /** A round lost to another handler's commit starts the next one, and the fifth ends the call.
      Nothing else moves. */
  lemma LostRoundIsRetried(s: System, h: HandlerId)
    requires Inv(s) && Enabled(s, Save(h)) && s.handlers[h].phase.loadedVersion < s.db.head.value
    ensures var handler := s.handlers[h];
            Apply(s, Save(h)) == s.(handlers := s.handlers[h := handler.(
              lost := handler.lost + 1,
              phase := if handler.lost + 1 < 5 then AtHead else Done(ConflictRetriesExhausted(5)))])
  {
    StaleSaveRefused(s.db, s.handlers[h].phase.registry, s.handlers[h].phase.loadedVersion);
  }

  /** A save at the loaded head persists, and the acceptance of the declared service is due. */
  lemma FreshRoundIsAccepted(s: System, h: HandlerId)
    requires Inv(s) && Enabled(s, Save(h)) && s.handlers[h].phase.loadedVersion == s.db.head.value
    ensures var handler, after := s.handlers[h], Apply(s, Save(h));
            && handler.command in s.commands && Validate(s.commands[handler.command]).Ok?
            && var d := Validate(s.commands[handler.command]).value;
               && after == s.(db := after.db,
                              handlers := s.handlers[h := handler.(phase := AtConfirm(Accepted(d.manifest.key)))])
               && Declared(s.db, after.db, d)
  {
    hide Inv, Fresh, Declared, SaveStep;
    SaveIsDeclare(s, h);
  }

  /** The answer an undisturbed call owes its command: a refusal that names the service, if its
      key is one at all, and otherwise the acceptance of the service. */
  ghost function ReplyTo(raw: RawDeclaration): Reply {
    match Validate(raw)
    case Ok(d) => Accepted(raw.manifest.key)
    case Err(reason) =>
      Rejected(if IsServiceKey(raw.manifest.key) then raw.manifest.key else "unrepresentable_service", reason)
  }

  /** A load that succeeds is judged at once: an invalid declaration is refused by name, a valid
      one goes on to the save with what the load gave and the declaration registered on it. */
  lemma LoadIsJudged(s: System, h: HandlerId, rows: seq<ScopeRecord>)
    requires Inv(s) && Enabled(s, ReadScopes(h, rows))
    ensures var handler := s.handlers[h];
            && handler.command in s.commands
            && var raw := s.commands[handler.command];
               var loaded := LoadOf(handler.phase.version, handler.phase.services, rows);
               Apply(s, ReadScopes(h, rows)) == s.(handlers := s.handlers[h := handler.(phase :=
                 if loaded.None? then Done(HandleResult.Failed)
                 else if Validate(raw).Err? then AtConfirm(ReplyTo(raw))
                 else AtSave(handler.phase.version, Register(loaded.value, Validate(raw).value).0, raw.manifest.key))])
  {
    hide Validate, Register, LoadOf;
    var handler := s.handlers[h];
    assert HandlerInv(s, handler);
    var raw := s.commands[handler.command];
    ReadScopesLoads(s, h, rows);
    if Validate(raw).Ok? {
      ValidateInvertsRaw(raw, Validate(raw).value);
      var loaded := LoadOf(handler.phase.version, handler.phase.services, rows);
      if loaded.Some? {
        ConsistentNeverRefuses(loaded.value, Validate(raw).value);
      }
    }
  }

  /** A confirmation is on the bus iff it reached it, and ends the call: with its reply if the
      bus acknowledged it, and with an error if not. */
  lemma ConfirmationEnds(s: System, h: HandlerId, reaches: bool, acknowledged: bool)
    requires Enabled(s, Confirm(h, reaches, acknowledged))
    ensures var handler, after := s.handlers[h], Apply(s, Confirm(h, reaches, acknowledged));
            && after.handlers == s.handlers[h := handler.(phase :=
                 if acknowledged then Done(Answered(handler.phase.reply)) else Done(HandleResult.Failed))]
            && after.confirmations == s.confirmations +
                 (if reaches then [Confirmation(handler.command, handler.phase.reply)] else [])
            && after.db == s.db && after.commands == s.commands && after.requesters == s.requesters
  {}

  /** What a handler does with each answer to its save, the ones that no reachable store gives
      included: a scope under another owner is refused by name, a failure ends the call. */
  lemma SaveAnswersLead(handler: Handler, key: string, owner: string, error: AppError)
    requires handler.phase.AtSave?
    ensures AfterSave(handler, Ok(Persisted)) == handler.(phase := AtConfirm(Accepted(handler.phase.service)))
    ensures AfterSave(handler, Ok(ScopeConflict(key, owner))) ==
            handler.(phase := AtConfirm(Rejected(handler.phase.service, ScopeOwnedByAnotherService(key, owner))))
    ensures AfterSave(handler, Err(error)) == handler.(phase := Done(HandleResult.Failed))
  {}

  /** A handler may be delivered any known command at any time, read whenever it is its turn, and
      crash, whatever the others are doing. */
  lemma AnyoneMayAct(s: System, h: HandlerId, id: CommandId)
    ensures h !in s.handlers && id in s.commands ==> Enabled(s, Deliver(h, id))
    ensures h in s.handlers ==> Enabled(s, Crash(h))
    ensures h in s.handlers && s.handlers[h].phase.AtHead? ==> Enabled(s, ReadHead(h))
    ensures h in s.handlers && s.handlers[h].phase.AtSave? ==> Enabled(s, Save(h))
    ensures h in s.handlers && s.handlers[h].phase.AtConfirm? ==>
              Enabled(s, Confirm(h, true, true)) && Enabled(s, Confirm(h, true, false))
              && Enabled(s, Confirm(h, false, false))
    ensures id in s.requesters && s.requesters[id].outcome.None? ==> Enabled(s, PublishCommand(id))
  {}

  // ----- the requester -----

  /** With the handshake disabled the requester is ready at once; enabled, it is not, and waits. */
  lemma StartWaits(s: System, id: CommandId, declaration: ScopeDeclaration, enabled: bool)
    requires Enabled(s, StartDeclaring(id, declaration, enabled))
    ensures Apply(s, StartDeclaring(id, declaration, enabled)) == s.(requesters := s.requesters[id :=
              Requester(declaration, !enabled, if enabled then None else Some(Disabled))])
  {}

  /** A received acceptance ends the wait, ready; a readable refusal ends it, not ready; an
      unreadable one changes nothing. */
  lemma ReplyResolves(s: System, id: CommandId, index: nat, decodes: bool)
    requires Enabled(s, Receive(id, index, decodes))
    ensures var before, after := s.requesters[id], Apply(s, Receive(id, index, decodes));
            && after == s.(requesters := after.requesters)
            && after.requesters == s.requesters[id := after.requesters[id]]
            && after.requesters[id].declaration == before.declaration
            && match s.confirmations[index].reply
               case Accepted(_) =>
                 after.requesters[id].outcome == Some(DeclarationAccepted) && after.requesters[id].ready
               case Rejected(_, reason) =>
                 if decodes then
                   after.requesters[id].outcome == Some(DeclarationRejected(reason)) && !after.requesters[id].ready
                 else after.requesters[id] == before
  {}

  // ----- a whole call -----

  /** What one undisturbed round does to the system: the declaration, the reply on the bus, the
      call answered. */
  ghost function Served(s: System, h: HandlerId): System
    requires s.db.head.Some? && h in s.handlers && s.handlers[h].command in s.commands
  {
    var id := s.handlers[h].command;
    var raw := s.commands[id];
    var tables := match Validate(raw)
                  case Ok(d) => Declare(s.db.tables, d)
                  case Err(_) => s.db.tables;
    s.(db := Db(Some(s.db.head.value + if tables == s.db.tables then 0 else 1), tables),
       handlers := s.handlers[h := s.handlers[h].(phase := Done(Answered(ReplyTo(raw))))],
       confirmations := s.confirmations + [Confirmation(id, ReplyTo(raw))])
  }

  /** The three reads of a round, all of one state of the store. */
  function Reads(h: HandlerId, serviceRows: seq<ServiceRecord>, scopeRows: seq<ScopeRecord>): seq<Step> {
    [ReadHead(h)] + [ReadServices(h, serviceRows)] + [ReadScopes(h, scopeRows)]
  }

  /** An undisturbed round; an invalid declaration is not saved. */
  function Round(
      h: HandlerId, valid: bool, serviceRows: seq<ServiceRecord>, scopeRows: seq<ScopeRecord>): seq<Step> {
    Reads(h, serviceRows, scopeRows) + (if valid then [Save(h)] else []) + [Confirm(h, true, true)]
  }

  ghost predicate AtStart(s: System, h: HandlerId) {
    Inv(s) && h in s.handlers && s.handlers[h].phase.AtHead?
  }

  /** Reads of one state never fail, and lead to the judgement of that very state. */
  lemma ReadsMirror(s: System, h: HandlerId, serviceRows: seq<ServiceRecord>, scopeRows: seq<ScopeRecord>)
    requires AtStart(s, h)
    requires Enumerates(serviceRows, s.db.tables.services) && Enumerates(scopeRows, s.db.tables.scopes)
    ensures var steps, handler := Reads(h, serviceRows, scopeRows), s.handlers[h];
            && handler.command in s.commands
            && IsRun(s, steps)
            && var raw, loaded := s.commands[handler.command], LoadOf(s.db.head.value, serviceRows, scopeRows);
               && loaded.Some?
               && After(s, steps) == s.(handlers := s.handlers[h := handler.(phase :=
                    if Validate(raw).Err? then AtConfirm(ReplyTo(raw))
                    else AtSave(s.db.head.value, Register(loaded.value, Validate(raw).value).0, raw.manifest.key))])
               && Inv(After(s, steps))
  {
    hide Inv, Validate, Register, LoadOf, Enumerates, ReplyTo, Sound;
    assert s.db.head.Some? && Sound(s.db.tables) && s.handlers[h].command in s.commands by { StartsKnown(s, h); }
    var handler := s.handlers[h];
    assert IsRun(s, []) && After(s, []) == s;
    OneMoreStep(s, [], ReadHead(h));
    StepKeepsInv(s, ReadHead(h));
    var s1 := Apply(s, ReadHead(h));
    assert s1 == s.(handlers := s.handlers[h := handler.(phase := AtServices(s.db.head.value))]);
    OneMoreStep(s, [ReadHead(h)], ReadServices(h, serviceRows));
    StepKeepsInv(s1, ReadServices(h, serviceRows));
    var s2 := Apply(s1, ReadServices(h, serviceRows));
    assert s2 == s.(handlers := s.handlers[h := handler.(phase := AtScopes(s.db.head.value, serviceRows))]);
    OneMoreStep(s, [ReadHead(h)] + [ReadServices(h, serviceRows)], ReadScopes(h, scopeRows));
    StepKeepsInv(s2, ReadScopes(h, scopeRows));
    ReadScopesLoads(s2, h, scopeRows);
    OwnersRead(s, serviceRows);
    LoadIsJudged(s2, h, scopeRows);
    assert [] + [ReadHead(h)] == [ReadHead(h)];
  }

  lemma StartsKnown(s: System, h: HandlerId)
    requires AtStart(s, h)
    ensures s.db.head.Some? && Sound(s.db.tables) && s.handlers[h].command in s.commands
  {
    assert HandlerInv(s, s.handlers[h]);
  }

  lemma OwnersRead(s: System, serviceRows: seq<ServiceRecord>)
    requires Inv(s) && Enumerates(serviceRows, s.db.tables.services)
    ensures forall k :: k in s.db.tables.scopes ==> s.db.tables.scopes[k].owner in FromRows(serviceRows)
  {}

  /** An undisturbed round answers its command, whatever the command and whatever was lost in
      earlier rounds: a valid declaration is in the store and accepted, an invalid one is refused. */
  lemma RoundServes(s: System, h: HandlerId, serviceRows: seq<ServiceRecord>, scopeRows: seq<ScopeRecord>)
    requires AtStart(s, h)
    requires Enumerates(serviceRows, s.db.tables.services) && Enumerates(scopeRows, s.db.tables.scopes)
    ensures s.db.head.Some? && s.handlers[h].command in s.commands
    ensures var steps := Round(h, Validate(s.commands[s.handlers[h].command]).Ok?, serviceRows, scopeRows);
            IsRun(s, steps) && After(s, steps) == Served(s, h)
  {
    hide Inv, Validate, Register, LoadOf, Enumerates, Declare, Apply, Reads;
    StartsKnown(s, h);
    ReadsMirror(s, h, serviceRows, scopeRows);
    var steps, raw := Reads(h, serviceRows, scopeRows), s.commands[s.handlers[h].command];
    var read := After(s, steps);
    if Validate(raw).Ok? {
      var saved := Apply(read, Save(h));
      assert Enabled(read, Save(h));
      FreshRoundIsAccepted(read, h);
      ValidateInvertsRaw(raw, Validate(raw).value);
      OneMoreStep(s, steps, Save(h));
      ConfirmedNext(s, steps + [Save(h)], h, ReplyTo(raw));
    } else {
      assert steps + [] == steps;
      ConfirmedNext(s, steps, h, ReplyTo(raw));
    }
  }

  lemma ConfirmedNext(s: System, steps: seq<Step>, h: HandlerId, reply: Reply)
    requires IsRun(s, steps) && h in After(s, steps).handlers
    requires After(s, steps).handlers[h].phase == AtConfirm(reply)
    ensures var now, all := After(s, steps), steps + [Confirm(h, true, true)];
            && IsRun(s, all)
            && After(s, all) == now.(
                 handlers := now.handlers[h := now.handlers[h].(phase := Done(Answered(reply)))],
                 confirmations := now.confirmations + [Confirmation(now.handlers[h].command, reply)])
  {
    assert Enabled(After(s, steps), Confirm(h, true, true));
    ConfirmationEnds(After(s, steps), h, true, true);
    OneMoreStep(s, steps, Confirm(h, true, true));
  }

  // ----- a whole handshake -----

  /** The requester declares and publishes, and the command reaches a handler. */
  ghost function Opening(id: CommandId, d: ScopeDeclaration, h: HandlerId): seq<Step> {
    [StartDeclaring(id, d, true)] + [PublishCommand(id)] + [Deliver(h, id)]
  }

  lemma OpeningStarts(s: System, id: CommandId, d: ScopeDeclaration, h: HandlerId)
    requires Inv(s) && id !in s.requesters && id !in s.commands && h !in s.handlers && KeysParsed(d)
    ensures IsRun(s, Opening(id, d, h))
    ensures s.db.head.Some?
    ensures After(s, Opening(id, d, h)) == s.(
              requesters := s.requesters[id := Requester(d, false, None)],
              commands := s.commands[id := Raw(d)],
              handlers := s.handlers[h := Handler(id, s.db.head.value, 0, AtHead)])
    ensures AtStart(After(s, Opening(id, d, h)), h)
  {
    assert s.db.head.Some?;
    hide Inv, Raw;
    assert IsRun(s, []) && After(s, []) == s;
    OneMoreStep(s, [], StartDeclaring(id, d, true));
    StepKeepsInv(s, StartDeclaring(id, d, true));
    var s1 := Apply(s, StartDeclaring(id, d, true));
    OneMoreStep(s, [StartDeclaring(id, d, true)], PublishCommand(id));
    StepKeepsInv(s1, PublishCommand(id));
    var s2 := Apply(s1, PublishCommand(id));
    OneMoreStep(s, [StartDeclaring(id, d, true)] + [PublishCommand(id)], Deliver(h, id));
    StepKeepsInv(s2, Deliver(h, id));
    assert [] + [StartDeclaring(id, d, true)] == [StartDeclaring(id, d, true)];
  }

  lemma {:induction false} RunsInTurn(s: System, a: seq<Step>, b: seq<Step>)
    requires IsRun(s, a) && IsRun(After(s, a), b)
    ensures IsRun(s, a + b) && After(s, a + b) == After(After(s, a), b)
    decreases |a|
  {
    hide Apply, Enabled;
    if a == [] {
      assert a + b == b;
    } else {
      RunsInTurn(Apply(s, a[0]), a[1..], b);
      assert (a + b)[1..] == a[1..] + b && (a + b)[0] == a[0];
    }
  }

  /** From any reachable store, a declaration that is delivered and served undisturbed comes back
      accepted: the requester is ready, and its service and every scope are stored. */
  lemma HandshakeSucceeds(
      s: System, id: CommandId, d: ScopeDeclaration, h: HandlerId,
      serviceRows: seq<ServiceRecord>, scopeRows: seq<ScopeRecord>)
    requires Inv(s) && id !in s.requesters && id !in s.commands && h !in s.handlers && KeysParsed(d)
    requires Enumerates(serviceRows, s.db.tables.services) && Enumerates(scopeRows, s.db.tables.scopes)
    ensures var steps := Opening(id, d, h) + Round(h, true, serviceRows, scopeRows)
                         + [Receive(id, |s.confirmations|, false)];
            && IsRun(s, steps)
            && var after := After(s, steps);
               && id in after.requesters
               && after.requesters[id] == Requester(d, true, Some(DeclarationAccepted))
               && after.db.tables == Declare(s.db.tables, d) && Holds(after.db.tables, d)
  {
    hide Inv, Validate, Raw, Declare, Enumerates, Opening, Round, Holds, Apply;
    OpeningStarts(s, id, d, h);
    var waiting := After(s, Opening(id, d, h));
    RoundServes(waiting, h, serviceRows, scopeRows);
    RoundTrip(d);
    var round := Round(h, true, serviceRows, scopeRows);
    RunsInTurn(s, Opening(id, d, h), round);
    var steps, served := Opening(id, d, h) + round, Served(waiting, h);
    var receive := Receive(id, |s.confirmations|, false);
    assert served.confirmations[|s.confirmations|] == Confirmation(id, ReplyTo(Raw(d)));
    assert Enabled(served, receive);
    ReplyResolves(served, id, |s.confirmations|, false);
    OneMoreStep(s, steps, receive);
    assert Holds(Declare(s.db.tables, d), d) by { StoredOnceDeclared(s, d); }
  }

  lemma StoredOnceDeclared(s: System, d: ScopeDeclaration)
    requires Inv(s)
    ensures Holds(Declare(s.db.tables, d), d)
  {
    SoundIsPrefixOwned(s.db.tables);
    HoldsAfterDeclare(s.db.tables, d);
  }
}
