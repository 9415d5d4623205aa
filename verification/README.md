# Verified model of the integration core

A Dafny model of four stateful protocols of a service platform, with the small pure layers they rest on.

1. **Scope registration.** Services declare the permission scopes they own. Handlers load a registry in three separate reads, judge a declaration against it, and save under a compare-and-set on one head version. Modules `ScopeKeys`, `Declarations`, `Registry`, `RegistryTables`, `RegistryStore`, `ScopeProtocol` (what holds in every run) and `ScopeCalls` (what each step and an undisturbed call lead to).
2. **The transactional outbox.** Relays lock one pending row at a time, publish it under a stable message id, and commit its transition. Modules `Subjects`, `Coverage`, `OutboxRows`, `OutboxPass` (one relay, one pass), `OutboxSchedule` (what a pass leaves behind and when the next one runs), `OutboxDraining` (which rows many passes get rid of), `OutboxRelays` (any number of relays, crashes and lost answers) and `OutboxAttempts` (what they get done).
3. **The published-language projection.** A publisher reconciles a bucket; a consumer copies the watched, passing keys by a scan and then a watch; directory sinks turn each call into table changes and impacts. Modules `KvKeys`, `KvReconcile`, `KvPublisher`, `KvProjection`, `DirectoryTables`, `DirectorySinks` and `DirectoryProjection` (the two ends joined).
4. **The resilient loops.** The durable consume loop with its failure budget, the reconcile/follow supervisor, and the generation-guarded projector health. Modules `Backoffs`, `ConsumeLoop`, `ConsumeRun`, `WatchHealths`, `Supervisor` and `ProjectorHealths`.

How it is built:

- Code that changes state is a class or a method with loops, proved against a function or a predicate; what the code promises is proved about that specification. Protocols with several parties are state machines: `Enabled` says when a step may happen, `Apply` what it does, and the theorems hold for every list of enabled steps.
- What the outside world answers (the broker, the database, the clock, the handler) is a parameter: a script of answers, a number of statements that still succeed, or a choice made by a step. Nothing is assumed of it beyond what the module header says.
- Strings hold one character per UTF-8 byte. Table reads and map walks are any enumeration of their contents, of which the sorted one is an instance.
- `dafny verify dfyconfig.toml` checks the whole project.

What the proofs found about the code, each with a lemma:

- A load whose three reads straddle another handler's commit can fail hydration outright: it does so exactly when a scope row was read whose owner the earlier read had missed (`LoadRebuilds`, `ReadScopesLoads`; `TornLoadExample` is a run).
- The publisher does write outside its prefix when the desired map reaches there (`OutsideUnchangedIff`, `WritesOutsideExample`).
- The consumer opens its watch after its scan, so a key changed in between stays stale until it is written again; the copy is right exactly when no such key exists (`AgreesIffNothingMissed`, `LateWatchMissesExample`).
- As many rows as the message cap whose stream is missing hide every row behind them for as long as it is missing, and a full pass of them sets no timer (`ServedIff`, `NoTimerIff`, `StarvedRowExample`); with fewer of them, the outbox drains around them (`OutboxDrains`); a row with the nil id is never fetched (`NilRowNeverVisited`).
- FAILED does not mean undelivered (`FailedMayBeDelivered`): a row is undelivered exactly when no publish of its message, and no late arrival of one, reached the broker (`UndeliveredIff`).
- The subject parser accepts versions it would not render, such as `v007` and `v+7` (`RenderOfParse`, `NonCanonicalExample`).
- A user that joins a group is not named by the group's impacts, only the group is (`GroupProjectionNotices`).

## Model

| member | source | states |
|---|---|---|
| `ScopeKeys.ScopeKeyGrammar` | crates/br-core-scope/src/key.rs:17-52 | A scope key parses iff it is at most 128 bytes and is two valid segments around its only colon; the stored colon, service segment and capability segment are those |
| `ScopeKeys.ScopeKeyErrorOrder` | crates/br-core-scope/src/key.rs:18-36 | Which error a bad key gets, exactly: too long, then a wrong number of colons, then the service segment's error, then the capability segment's |
| `ScopeKeys.ServiceKeyGrammar` | crates/br-core-scope/src/service.rs:13-42 | A service key is one segment of 1 to 64 lower-case letters, digits and underscores; a bad one is empty, too long or has a foreign byte, reported in that order |
| `Declarations.NewDeclaration` | crates/br-core-scope/src/declaration.rs:28-47 | The checking loop accepts iff every key belongs to the manifest and none repeats, and otherwise reports the first fault in list order |
| `Declarations.FaultlessIsWellFormed` | crates/br-core-scope/src/declaration.rs:28-47 | The first-fault scan finds nothing iff the declaration is well formed |
| `Declarations.FirstFaultIsFirst` | crates/br-core-scope/src/declaration.rs:28-47 | The reported fault is the first one: all specs before it are well formed, and a foreign prefix is reported before a repetition |
| `Declarations.ValidateRaw` | crates/br-core-scope/src/raw.rs:31-60 | The validation loop computes `Validate`: service key first, then each scope key, then the declaration rules |
| `Declarations.ParseSpecsMeaning` | crates/br-core-scope/src/raw.rs:31-60 | Parsing the specs succeeds iff all keys do, keeps every field, and fails only with an invalid key |
| `Declarations.ValidateInvertsRaw` | crates/br-core-scope/src/raw.rs:31-83 | `validate(raw) = d` iff raw is the raw form of d: validation and the conversion back are exact inverses |
| `Declarations.RoundTrip` | crates/br-core-scope/src/raw.rs:62-83 | `validate(raw(d)) = d` for every declaration |
| `Declarations.ValidateErrors` | crates/br-core-scope/src/raw.rs:31-60 | An invalid-key error iff some key does not parse; validation never reports a cross-owner error |
| `Declarations.FirstBadKey` | crates/br-core-scope/src/raw.rs:40-58 | The first spec whose key does not parse is reported, with its key and its own fault |
| `Declarations.ValidateReports` | crates/br-core-scope/src/raw.rs:31-60 | Which error validation reports: the service key's, then the first bad scope key's, then the first fault among the parsed specs |
| `Registry.ScopeRegistry.RegisterDeclaration` | crates/br-identity-domain/src/registry.rs:57-104 | The in-place registration changes the registry and returns events exactly as `Register` says |
| `Registry.ScopeRegistry.FindForeignClaim` | crates/br-identity-domain/src/registry.rs:57-75 | The claim loop returns the first spec whose key another service holds |
| `Registry.ScopeRegistry.AddMissingScopes` | crates/br-identity-domain/src/registry.rs:86-104 | The push loop adds each unknown scope to the declaring service, with its event |
| `Registry.RefusedIffForeign` | crates/br-identity-domain/src/registry.rs:57-75 | A registration is refused iff some key is held by a different service |
| `Registry.RefusalNamesTheFirst` | crates/br-identity-domain/src/registry.rs:63-75 | A refusal names the first claimed key that another service holds, and that service, and leaves the registry as it was |
| `Registry.ConsistentNeverRefuses` | crates/br-identity-domain/src/registry.rs:57-104 | On a consistent registry no well-formed declaration is ever refused |
| `Registry.OwnerIsPrefix` | crates/br-identity-domain/src/registry.rs:114-128 | On a consistent registry the owner of a key is the service named by its prefix |
| `Registry.ScopeKeysUnique` | crates/br-identity-domain/src/registry.rs:23-55 | On a consistent registry a scope key stands at one place only |
| `Registry.RegisterKeepsConsistent` | crates/br-identity-domain/src/registry.rs:57-104 | Registration keeps unique services, unique keys and prefix ownership |
| `Registry.RegisterKeepsEntries` | crates/br-identity-domain/src/registry.rs:57-104 | Registration keeps every earlier service and scope, in order, with its first metadata |
| `Registry.RegisterIdempotent` | crates/br-identity-domain/src/registry.rs:57-104 | Registering the same declaration again changes nothing and emits nothing |
| `Registry.EventsReplay` | crates/br-identity-domain/src/registry.rs:57-104 | The emitted events, replayed over the old registry, give the new one; no events iff no change; the version moves by one iff the services changed |
| `Registry.Hydrate` | crates/br-identity-domain/src/registry.rs:23-55 | Hydration succeeds iff the stored services are consistent, keeps them as they are, and otherwise returns the first fault in walk order |
| `Registry.HydrationFaultIsFirst` | crates/br-identity-domain/src/registry.rs:23-55 | The first fault: every service before it is consistent, a repeated service is reported before its scopes, and there is none iff all are consistent |
| `Registry.HydrateScopes` | crates/br-identity-domain/src/registry.rs:33-52 | The inner loop accepts a service iff its scopes are its own and distinct |
| `RegistryTables.RegisterIsDeclare` | crates/br-identity-domain/src/registry.rs:57-104 | As rows, a registration is one table operation: insert what is missing, keep what is there |
| `RegistryTables.VersionMovesWithTables` | crates/br-identity-domain/src/registry.rs:76-104 | The version moves iff that operation changes a row |
| `RegistryTables.HoldsAfterDeclare` | crates/br-identity-domain/src/registry.rs:57-104 | After it every declared service and scope is in the rows under its owner, and no earlier row changed |
| `RegistryTables.DeclareKeepsSound` | crates/br-identity-domain/src/registry.rs:57-104 | It keeps the row invariants: parsable keys, owners present, prefix ownership |
| `RegistryTables.FirstMetadataWins` | crates/br-identity-app/src/repository.rs:108-156 | Declaring what the rows already hold changes none of them, whatever metadata it brings |
| `RegistryStore.BuildHydrationInput` | crates/br-identity-app/src/hydration.rs:8-41 | The two grouping loops compute `HydrationInput`, with the first failing row as the error |
| `RegistryStore.ServiceRowReported` | crates/br-identity-app/src/hydration.rs:14-18 | The first service row whose key does not parse is the error, before any scope row |
| `RegistryStore.ScopeRowReported` | crates/br-identity-app/src/hydration.rs:20-35 | Then the first scope row with a bad key, a bad owner or an owner that is not listed, each named |
| `RegistryStore.Load` | crates/br-identity-app/src/repository.rs:77-106 | A load fails on a missing head, otherwise is hydration of the grouped rows; a grouping error is reported before a hydration error, each the first of its kind |
| `RegistryStore.LoadRebuilds` | crates/br-identity-app/src/repository.rs:77-106 | For any reads in any order, a load succeeds iff every scope row has its owner among the service rows read, and then is a consistent registry with exactly those rows |
| `RegistryStore.StoredRowsHydrateBack` | crates/br-identity-app/src/hydration.rs:8-41 | The rows of a consistent registry load back to it up to order |
| `RegistryStore.ScopeRegistryRepository.Save` | crates/br-identity-app/src/repository.rs:25-63 | The transaction in place: compare the head, write all services, move the head, or leave everything |
| `RegistryStore.ScopeRegistryRepository.WriteOneService` | crates/br-identity-app/src/repository.rs:108-156 | The row writes of one service: insert if absent, stop at a scope row owned by another service |
| `RegistryStore.WriteMerges` | crates/br-identity-app/src/repository.rs:108-156 | Writing a consistent registry into prefix-owned rows never conflicts and leaves the union, earlier rows winning |
| `RegistryStore.WriteIff` | crates/br-identity-app/src/repository.rs:108-156 | On any rows, a consistent registry is written iff none of its scopes is stored under another owner, and the conflict names one that is |
| `RegistryStore.SaveAnswers` | crates/br-identity-app/src/repository.rs:25-75 | What a save of a consistent registry answers on any store: missing head, moved head, a named scope conflict, or persisted |
| `RegistryStore.OnlyPersistedWrites` | crates/br-identity-app/src/repository.rs:25-75 | Any outcome but `Persisted` leaves the database as it was |
| `RegistryStore.SaveOfFreshLoad` | crates/br-identity-app/src/repository.rs:25-63 | Saving a registration made on the current rows persists exactly that registration, and the head moves by one iff a row changed |
| `ScopeProtocol.StaleSaveRefused` | crates/br-identity-app/src/repository.rs:32-52 | A save whose loaded version is not the head is refused and changes nothing |
| `ScopeProtocol.FreshSavePersists` | crates/br-identity-app/src/repository.rs:25-63 | A save from a fresh load is the declaration applied to the rows |
| `ScopeProtocol.ReadScopesLoads` | crates/br-identity-app/src/repository.rs:77-106 | Inside any run, the three-read load fails iff a scope row was written whose owner the earlier read had missed; otherwise it mirrors the rows it read |
| `ScopeProtocol.SaveIsDeclare` | crates/br-identity-app/src/repository.rs:25-63 | Inside any run, a save persists iff the head stands where the load saw it, and then it is the declaration applied to the rows committed just before it; a torn load is always refused |
| `ScopeProtocol.StepGrows` | crates/br-identity-app/src/repository.rs:25-63 | No step of any party removes or changes a row or lowers the head, and the head stands still only with the rows |
| `ScopeProtocol.StepKeepsInv` | crates/br-identity-app/src/pipeline.rs:26-63 | Every step of every handler, requester and the broker keeps the protocol invariant |
| `ScopeProtocol.RunKeepsInv` | crates/br-identity-app/src/pipeline.rs:26-63 | So does every run of any number of interleaved handlers |
| `ScopeProtocol.HeadCountsChanges` | crates/br-identity-app/src/repository.rs:44-56 | The head is the start head plus the number of steps that changed a row |
| `ScopeProtocol.SavesAreSerial` | crates/br-identity-app/src/repository.rs:25-106 | Main result: in every interleaving each save is either the registration of its command on the current rows or a refusal that changes nothing because the head has moved |
| `ScopeProtocol.ConfirmationsAgree` | crates/br-identity-app/src/pipeline.rs:26-85 | Main result: under redelivery and competing pipelines, two confirmations of one command are the same confirmation |
| `ScopeProtocol.AcceptanceIsDurable` | crates/br-util-scope-declaration/src/handshake.rs:14-98 | Main result: a requester that returned Accepted has its service and every scope in the store then and in all later states; it is never Rejected, and it is ready iff accepted or disabled (that an acceptance is returned is `ReplyResolves` and `HandshakeSucceeds`) |
| `ScopeProtocol.ExhaustionIsPaidFor` | crates/br-identity-app/src/pipeline.rs:30-63 | Main result: `ConflictRetriesExhausted` means the head rose by at least five during that call (that a lost round is retried is `LostRoundIsRetried`) |
| `ScopeProtocol.MissedOwnerFails` | crates/br-identity-app/src/repository.rs:77-106 | In any run, reading a scope row whose owner the earlier read had missed ends the call with an error |
| `ScopeProtocol.TornLoadExample` | crates/br-identity-app/src/repository.rs:77-106 | A ten-step run of two handlers from an empty store in which every state is sound and a torn load ends one call with a hydration error |
| `ScopeCalls.LostRoundIsRetried` | crates/br-identity-app/src/pipeline.rs:30-62 | A round lost to another commit starts the next one, the fifth ends the call with `ConflictRetriesExhausted(5)`, and nothing else moves |
| `ScopeCalls.FreshRoundIsAccepted` | crates/br-identity-app/src/pipeline.rs:37-44 | A save at the loaded head persists the declaration and makes the acceptance of its service due |
| `ScopeCalls.LoadIsJudged` | crates/br-identity-app/src/pipeline.rs:31-37 | A load that succeeds is judged at once: an invalid declaration is refused by name, a valid one goes to the save with what was loaded |
| `ScopeCalls.SaveAnswersLead` | crates/br-identity-app/src/pipeline.rs:37-57 | What each answer of a save leads to, a scope conflict and a failure included |
| `ScopeCalls.ConfirmationEnds` | crates/br-identity-app/src/pipeline.rs:39-44 | A confirmation is on the bus iff it reached it, and ends the call: with its reply if acknowledged, with an error if not |
| `ScopeCalls.StartWaits` | crates/br-util-scope-declaration/src/handshake.rs:14-31 | A disabled requester is ready at once, an enabled one is not and waits |
| `ScopeCalls.ReplyResolves` | crates/br-util-scope-declaration/src/handshake.rs:84-124 | A received acceptance ends the wait, ready; a readable refusal ends it, not ready; an unreadable one changes nothing |
| `ScopeCalls.AnyoneMayAct` | crates/br-identity-app/src/pipeline.rs:26-63 | No step waits for another party: a handler is delivered, reads, saves, confirms or crashes whatever the others do |
| `ScopeCalls.RoundServes` | crates/br-identity-app/src/pipeline.rs:26-85 | Main result: an undisturbed round, whatever was lost before it, answers its command: a valid declaration is in the store and accepted, an invalid one refused, and the whole new state is given |
| `ScopeCalls.HandshakeSucceeds` | crates/br-util-scope-declaration/src/handshake.rs:14-98 | Main result: from any reachable store, a declaration delivered and served undisturbed comes back accepted, the requester ready and every scope stored |
| `Text.JoinOfSplit` | crates/br-util-nats-fabric/src/coords/parse.rs:15-20 | Splitting on a separator and joining again is the identity |
| `Text.SplitOfJoin` | crates/br-util-nats-fabric/src/coords/parse.rs:15-20 | Joining separator-free parts and splitting again is the identity |
| `Subjects.SubjectTokens` | crates/br-util-nats-fabric/src/coords/render.rs:19-41 | A rendered subject has exactly six tokens, the coordinate's own |
| `Subjects.ParseOfRender` | crates/br-util-nats-fabric/src/coords/parse.rs:15-39 | Parsing a rendered event subject gives its coordinates back |
| `Subjects.ParseReports` | crates/br-util-nats-fabric/src/coords/parse.rs:15-39 | What six tokens parse to, and which fault comes first: shape, version, then the coordinates from left to right, each with its place |
| `Subjects.VersionGrammar` | crates/br-util-nats-fabric/src/coords/parse.rs:27-32 | A version is one or more digits behind at most one plus sign, worth at most 255 |
| `Subjects.CoordGrammar` | crates/br-core-integration/src/coords/segment.rs:9-23 | A coordinate is a non-empty run of letters, digits, dashes and underscores; a bad one is reported with its role and its text |
| `Subjects.RenderOfParse` | crates/br-util-nats-fabric/src/coords/parse.rs:15-39 | A subject that parses renders back to itself iff its version is in canonical decimal form |
| `Subjects.NonCanonicalExample` | crates/br-util-nats-fabric/src/coords/parse.rs:27-32 | `integration.evt.a.b.c.v007` and `integration.evt.a.b.c.v+7` parse to the event that renders with `v7` |
| `Subjects.SubjectInjective` | crates/br-util-nats-fabric/src/coords/render.rs:19-41 | Equal subjects have equal kind, coordinates and version |
| `Subjects.SubjectsDistinct` | crates/br-util-nats-fabric/src/coords/render.rs:19-41 | Rendering is injective on commands and on events, and no command subject is an event subject |
| `Coverage.PatternCovers` | crates/br-util-nats-fabric/src/consumer/coverage.rs:7-31 | The two-iterator loop agrees with the declarative token match for all strings: `*` is one token, a final `>` one or more, an interior `>` never matches, an empty token never matches |
| `Coverage.IsSubjectCovered` | crates/br-util-nats-fabric/src/consumer/coverage.rs:1-5 | A subject is covered iff some configured pattern covers it |
| `Coverage.EventStreamCovers` | crates/br-util-nats-fabric/src/consumer/coverage.rs:7-31 | `integration.evt.>` covers every rendered event and no rendered command |
| `Coverage.LiteralCoversItself` | crates/br-util-nats-fabric/src/consumer/coverage.rs:7-31 | A rendered event or command subject used as a pattern covers itself and nothing else |
| `OutboxRows.RetryBackoffFormula` | crates/br-core-integration/src/outbox/retry.rs:7-16 | For every u32 the delay is min(30000, 500*2^(max(n,1)-1)) ms, and the shift never overflows where it is used |
| `OutboxRows.RetryBackoffMonotone` | crates/br-core-integration/src/outbox/retry.rs:7-16 | The delay is monotone and stays between 500 and 30000 ms |
| `OutboxRows.AttemptOutcome` | crates/br-core-integration/src/outbox/status.rs:42-53 | One attempt in plain terms: success publishes, a failure counts and gives up at the configured number, or at once when that is zero |
| `OutboxRows.AttemptsAsStored` | crates/br-util-nats-fabric/src/outbox/store.rs:101-115 | A negative stored count reads as none, any 32-bit count as itself |
| `OutboxRows.MessagesCoincide` | crates/br-util-nats-fabric/src/outbox/msg_id.rs:18-26 | Rows with one event id send one message, rows with different event ids different ones, and rows without send one each |
| `OutboxRows.SettleKeepsRowInv` | crates/br-core-integration/src/outbox/status.rs:42-53 | One attempt keeps the attempt bounds: FAILED iff a counted failure reaches the cap, attempts up by one unless the stream is missing |
| `OutboxRows.StageKeepsTableInv` | crates/br-util-nats-fabric/src/outbox/stage.rs:6-28 | Staging a valid destination keeps every row within its bounds and readable |
| `OutboxRows.StagedDestination` | crates/br-util-nats-fabric/src/outbox/store.rs:101-115 | A staged row is fetched with exactly the destination it was staged with |
| `OutboxRows.ReadableRow` | crates/br-util-nats-fabric/src/outbox/store.rs:101-115 | No row of a reachable table gives a destination error |
| `OutboxPass.OutboxRelay.ProcessOne` | crates/br-util-nats-fabric/src/outbox/relay.rs:62-135 | The one-row transaction in place: the next pending row above the cursor, its message id, transition and count |
| `OutboxPass.OutboxRelay.RunOnceDetailed` | crates/br-util-nats-fabric/src/outbox/relay.rs:47-60 | The cursor loop leaves the table and counters of the recursive walk |
| `OutboxPass.OutboxRelay.DrainAndUpdateHealth` | crates/br-util-nats-fabric/src/outbox/driver.rs:69-93 | A drain returns the schedule of its pass; health is degraded iff the pass had structural failures |
| `OutboxPass.WalkVisitsFirst` | crates/br-util-nats-fabric/src/outbox/relay.rs:47-60 | From any cursor and budget a walk visits the least pending ids above the cursor in strictly increasing order and settles exactly those |
| `OutboxPass.PassVisitsFirst` | crates/br-util-nats-fabric/src/outbox/relay.rs:47-60 | A pass visits the first min(cap, n) pending rows above nil, each once, and changes no other row |
| `OutboxPass.CapAtLeastOne` | crates/br-util-nats-fabric/src/outbox/relay.rs:47-60 | The cap of a pass is the larger of one and the configured number of messages |
| `OutboxPass.CountersAreFates` | crates/br-util-nats-fabric/src/outbox/report.rs:77-103 | Each counter is the number of visited rows with that fate, they add up to picked, duplicates and row-id fallbacks are exact, and the retry minimum is the least attempts of a retried row |
| `OutboxSchedule.NoTimerIff` | crates/br-util-nats-fabric/src/outbox/driver.rs:86-93 | The schedule gives no delay iff nothing was retried in a pass below the cap, or a full pass was all structural |
| `OutboxSchedule.DelayIsShortestOwed` | crates/br-util-nats-fabric/src/outbox/driver.rs:86-93 | A set timer is zero iff a full pass moved a row out, and otherwise the shortest backoff that a retried row is owed |
| `OutboxSchedule.NothingElseStranded` | crates/br-util-nats-fabric/src/outbox/driver.rs:86-93 | With no delay, every row still pending failed structurally in that pass, or the pass was full of structural rows |
| `OutboxSchedule.StructuralPassIsStuck` | crates/br-util-nats-fabric/src/outbox/relay.rs:83-103 | An all-structural pass leaves the table as it was, so a full one hides the rows behind it until the broker changes |
| `OutboxSchedule.StarvedRow` | crates/br-util-nats-fabric/src/outbox/driver.rs:86-93 | With a cap of one, a publishable row behind a structural one is not tried and no timer is set |
| `OutboxSchedule.StarvedRowExample` | crates/br-util-nats-fabric/src/outbox/driver.rs:86-93 | That on two freshly staged rows |
| `OutboxSchedule.NilRowNeverVisited` | crates/br-util-nats-fabric/src/outbox/relay.rs:47-60 | A row with the nil id is never visited, because the cursor starts there |
| `OutboxSchedule.ImmediateMakesProgress` | crates/br-util-nats-fabric/src/outbox/driver.rs:86-93 | A zero-delay pass leaves fewer pending rows |
| `OutboxSchedule.ImmediateRoundsBounded` | crates/br-util-nats-fabric/src/outbox/driver.rs:86-93 | Consecutive zero-delay passes are at most the pending rows at the start |
| `OutboxDraining.VisitedIff` | crates/br-util-nats-fabric/src/outbox/relay.rs:47-60 | A pass reaches a pending row iff fewer than the cap are pending below it |
| `OutboxDraining.PassPaysDebt` | crates/br-util-nats-fabric/src/outbox/relay.rs:83-103 | Where missing streams are confined to some rows, the sum of (cap - attempts) over the other pending rows falls by at least one for each of them visited, and strictly whenever one is pending and fewer stuck rows than the message cap are |
| `OutboxDraining.OutboxDrains` | crates/br-util-nats-fabric/src/outbox/relay.rs:47-60 | Main result: with fewer stuck pending rows than the message cap, after as many passes as that sum only stuck rows are pending above nil, whatever else the broker answers |
| `OutboxDraining.TargetStarved` | crates/br-util-nats-fabric/src/outbox/relay.rs:47-60 | Behind as many stuck rows as the cap, a row is never touched, in any number of passes |
| `OutboxDraining.ServedIff` | crates/br-util-nats-fabric/src/outbox/relay.rs:47-60 | Main result, for one row: while exactly the stuck rows' streams are missing, it leaves the pending rows iff fewer stuck rows than the cap stand before it |
| `OutboxRelays.FetchTakesTheNextFree` | crates/br-util-nats-fabric/src/outbox/store.rs:27-47 | A fetch holds the least pending row above the cursor that no other relay holds, unless the pass is spent |
| `OutboxRelays.CommitSettles` | crates/br-util-nats-fabric/src/outbox/store.rs:49-78 | A relay's commit is the settlement of the row as it still is, and a published row's message is in the log |
| `OutboxRelays.StepKeepsInv` | crates/br-util-nats-fabric/src/outbox/relay.rs:62-135 | Staging, fetching, publishing, committing and crashing, by any relay, and a message that arrives late, keep the delivery invariant |
| `OutboxRelays.StepForward` | crates/br-util-nats-fabric/src/outbox/store.rs:49-78 | No step changes a terminal row, lowers attempts, rewrites a payload or removes a stored message |
| `OutboxRelays.DeliveryIsSafe` | crates/br-util-nats-fabric/src/outbox/relay.rs:62-135 | Main result: with any number of relays, crashes, lost answers and late arrivals, every PUBLISHED row is in the broker log, no message is stored twice, no two relays hold one row, and the attempt bounds hold |
| `OutboxRelays.TerminalRowsAreFrozen` | crates/br-util-nats-fabric/src/outbox/store.rs:27-78 | From any reachable state on, PUBLISHED and FAILED rows never change again |
| `OutboxRelays.LogIsWhatReachedIt` | crates/br-util-nats-fabric/src/outbox/relay.rs:76-83 | Over any run the log holds what it held before and exactly the messages that reached the broker |
| `OutboxRelays.UndeliveredIff` | crates/br-util-nats-fabric/src/outbox/relay.rs:76-103 | Main result: in every reachable state a row's message is undelivered iff no publish or late arrival of it reached the broker, which for a PUBLISHED row one did |
| `OutboxRelays.LostLastAnswerFails` | crates/br-util-nats-fabric/src/outbox/relay.rs:76-103 | From any reachable state, a last attempt that is stored with its answer lost leaves the row FAILED with its message in the log |
| `OutboxRelays.FailedMayBeDelivered` | crates/br-util-nats-fabric/src/outbox/relay.rs:76-103 | Two five-step runs from an empty table that end FAILED: one with the message in the log, one without |
| `OutboxAttempts.PublishHears` | crates/br-util-nats-fabric/src/outbox/relay.rs:76-90 | What a relay hears of each kind of delivery, duplicates told apart |
| `OutboxAttempts.AttemptLeads` | crates/br-util-nats-fabric/src/outbox/relay.rs:76-103 | Main result: where an attempt leads: an answered publish makes the row PUBLISHED, a missing stream leaves it, any other failure counts up to FAILED; no other row moves, and the relay goes on behind it |
| `OutboxAttempts.CrashFrees` | crates/br-util-nats-fabric/src/outbox/relay.rs:62-135 | A crash frees the held row and changes nothing else |
| `OutboxAttempts.PassIsBounded` | crates/br-util-nats-fabric/src/outbox/relay.rs:47-60 | Whatever the other relays do, one pass takes rows in strictly rising id order, above nil, and at most the cap |
| `OutboxAttempts.SoloPassIsTheWalk` | crates/br-util-nats-fabric/src/outbox/relay.rs:47-135 | Main result: the steps of an undisturbed relay are the walk of one pass, whatever becomes of each publish |
| `OutboxAttempts.UndisturbedPass` | crates/br-util-nats-fabric/src/outbox/relay.rs:47-60 | So is a whole pass of an idle relay, from the nil id up to the cap |
| `OutboxAttempts.AnyoneMayAct` | crates/br-util-nats-fabric/src/outbox/relay.rs:62-135 | No relay waits for another to start, fetch, publish, commit or crash |
| `OutboxAttempts.TwoHoldTwo` | crates/br-util-nats-fabric/src/outbox/store.rs:27-47 | While one relay holds a row, another takes the next |
| `KvKeys.NewKvKey` | crates/br-util-nats-fabric/src/kv/key.rs:13-33 | A key is accepted iff it is non-empty and of the allowed characters, and is kept as it is |
| `KvReconcile.Reconcile` | crates/br-util-nats-fabric/src/kv/reconcile.rs:9-33 | The two loops produce the diff: each differing key exactly once, with its desired value or a delete, no other key, puts first |
| `KvReconcile.DiffReaches` | crates/br-util-nats-fabric/src/kv/reconcile.rs:9-33 | The diff applied to what was observed gives what was desired |
| `KvReconcile.DiffInAnyOrder` | crates/br-util-nats-fabric/src/kv/reconcile.rs:9-33 | So does every reordering of it |
| `KvReconcile.DiffIsUnique` | crates/br-util-nats-fabric/src/kv/reconcile.rs:9-33 | Two diffs of the same maps are the same operations |
| `KvReconcile.RestIsDiff` | crates/br-util-nats-fabric/src/kv/reconcile.rs:9-33 | Cut anywhere, the remaining operations are the diff of what is there now |
| `KvReconcile.RerunConverges` | crates/br-util-nats-fabric/src/kv/publisher.rs:77-90 | After any interruption a re-run reaches the desired map and issues exactly the operations that were left |
| `KvPublisher.Bucket.ScanEntries` | crates/br-util-nats-fabric/src/kv/scan.rs:11-29 | The scan loop returns exactly the entries under the prefix, for any listing that includes the live keys |
| `KvPublisher.Bucket.ScanKeys` | crates/br-util-nats-fabric/src/kv/scan.rs:31-43 | The key scan returns the matching keys as often as they are listed, in byte order, and those are exactly the keys under the prefix |
| `KvKeys.SortKeysSorts` | crates/br-util-nats-fabric/src/kv/scan.rs:41-42 | Sorting keeps the keys and puts them in byte order |
| `KvPublisher.Bucket.Reconcile` | crates/br-util-nats-fabric/src/kv/publisher.rs:77-90 | The publisher applies the diff against the scanned prefix, as far as the bucket accepts writes |
| `KvPublisher.PublisherReaches` | crates/br-util-nats-fabric/src/kv/publisher.rs:77-90 | A complete run leaves everything desired plus what lay outside the prefix |
| `KvPublisher.PublishedKey` | crates/br-util-nats-fabric/src/kv/publisher.rs:77-90 | After any number of its writes each key is as it was or as desired |
| `KvPublisher.OutsideUnchangedIff` | crates/br-util-nats-fabric/src/kv/publisher.rs:77-90 | Keys outside the prefix stay unchanged iff every desired key out there already has its desired value |
| `KvPublisher.WritesOutsideExample` | crates/br-util-nats-fabric/src/kv/publisher.rs:77-90 | A desired key outside the prefix is written |
| `KvPublisher.RetriesConverge` | crates/br-util-nats-fabric/src/kv/publisher.rs:77-98 | After any number of interrupted runs the first complete one reaches the target of the first |
| `KvProjection.FollowedKey` | crates/br-util-nats-fabric/src/kv/consumer.rs:134-157 | Across a stretch of the log a watched key ends with its view if mentioned, and otherwise neither copy nor bucket moves |
| `KvProjection.FollowLeavesUnwatched` | crates/br-util-nats-fabric/src/kv/consumer.rs:122-127 | Keys outside the watched prefixes are never touched |
| `KvProjection.WatchedUnderAny` | crates/br-util-nats-fabric/src/kv/consumer.rs:125 | A key is watched iff it lies under any one of the prefixes |
| `KvProjection.FollowKeepsAgreement` | crates/br-util-nats-fabric/src/kv/consumer.rs:102-157 | Main result: incremental projection equals a full rescan at every step of every log, including values that start or stop passing the filter |
| `KvProjection.ReplayIsHarmless` | crates/br-util-nats-fabric/src/kv/consumer.rs:102-157 | Replaying any suffix of the log over an up-to-date copy ends in the same copy |
| `KvProjection.Consumer.ApplyEntry` | crates/br-util-nats-fabric/src/kv/consumer.rs:134-157 | One entry projects a passing put and retracts everything else |
| `KvProjection.Consumer.FollowOnce` | crates/br-util-nats-fabric/src/kv/consumer.rs:102-132 | The watch loop applies the delivered entries that `Through` gives, ends as it says, and reports whether anything was delivered |
| `KvProjection.ThroughIsAPrefix` | crates/br-util-nats-fabric/src/kv/consumer.rs:113-131 | Those entries are everything delivered if the loop finished, and everything before the break or the refused call if not |
| `KvProjection.ThroughUsesItsCalls` | crates/br-util-nats-fabric/src/kv/consumer.rs:125-129 | The loop makes no more sink calls than succeed, and reports a refused one only when they are used up |
| `KvProjection.EnoughCallsFinish` | crates/br-util-nats-fabric/src/kv/consumer.rs:113-132 | If everything is delivered and the sink accepts a call for each watched entry, the loop gets through all of it |
| `KvProjection.Consumer.ScanPassing` | crates/br-util-nats-fabric/src/kv/consumer.rs:159-190 | The scan holds exactly the watched, passing keys, each as it was when it was read, and fails iff the listing, a listed key or a watched value cannot be read |
| `KvProjection.Consumer.Bootstrap` | crates/br-util-nats-fabric/src/kv/consumer.rs:76-97 | The bootstrap replaces the watched part of any copy by the scan and keeps the rest; a failed scan touches nothing; cut short later, each touched key has its new content; it completes iff the scan does and the sink accepts each projection, the key listing and each retraction |
| `KvProjection.QuietBootstrapAgrees` | crates/br-util-nats-fabric/src/kv/consumer.rs:76-97 | On a quiet log the bootstrapped copy equals a full rescan, whatever it was before, and its unwatched part is kept |
| `KvProjection.AgreesIffNothingMissed` | crates/br-util-nats-fabric/src/kv/consumer.rs:76-132 | Main result: scan, then watch from a given log position: the copy equals a rescan iff no watched key untouched since that position had changed between its read and it |
| `KvProjection.EarlyWatchMissesNothing` | crates/br-util-nats-fabric/src/kv/consumer.rs:102-111 | A watch that starts no later than the scan's listing misses nothing |
| `KvProjection.LateWatchMissesExample` | crates/br-util-nats-fabric/src/kv/supervisor.rs:25-39 | A key put between scan and watch stays missing |
| `DirectorySinks.Connection.Rewrite` | crates/br-util-directory/src/consumer/sink/group.rs:134-157 | Deleting the removed and inserting the added pairs leaves exactly the projected member set |
| `DirectorySinks.Connection.WriteUser` | crates/br-util-directory/src/consumer/sink/user.rs:37-61 | The user upsert and its impact: exactly what the change owes |
| `DirectorySinks.Connection.EraseUser` | crates/br-util-directory/src/consumer/sink/user.rs:63-88 | The user deletion and the impacts on the user and its groups |
| `DirectorySinks.Connection.WriteGroup` | crates/br-util-directory/src/consumer/sink/group.rs:42-70 | The group upsert, membership diff and rewrite, and exactly the impacts owed |
| `DirectorySinks.Connection.EraseGroup` | crates/br-util-directory/src/consumer/sink/group.rs:91-104 | The staged group deletion, with the group and each member named |
| `DirectorySinks.Connection.EraseGroupOnly` | crates/br-util-directory/src/consumer/sink/group.rs:79-89 | The stagerless deletion is one statement with the same table effect |
| `DirectorySinks.DirectoryConsumer.Commit` | crates/br-util-directory/src/consumer/sink/context.rs:52-72 | A transaction moves tables, impacts and progress together at its commit, or moves nothing |
| `DirectorySinks.DirectoryConsumer.Finish` | crates/br-util-directory/src/consumer/sink/context.rs:39-50 | The stagerless path keeps what its one statement did and bumps progress iff it changed something |
| `DirectorySinks.DirectoryConsumer.ProjectUser` | crates/br-util-directory/src/consumer/sink/user.rs:37-61 | A user projection is one all-or-nothing step and succeeds iff no statement fails |
| `DirectorySinks.DirectoryConsumer.RetractUser` | crates/br-util-directory/src/consumer/sink/user.rs:63-88 | A user retraction is one all-or-nothing step, with or without a stager |
| `DirectorySinks.DirectoryConsumer.ProjectGroup` | crates/br-util-directory/src/consumer/sink/group.rs:37-72 | A group projection is one all-or-nothing step |
| `DirectorySinks.DirectoryConsumer.RetractGroup` | crates/br-util-directory/src/consumer/sink/group.rs:74-105 | A group retraction is one all-or-nothing step on both paths |
| `DirectorySinks.OneGroupOwed` | crates/br-util-directory/src/consumer/sink/group.rs:63-70 | The pushed impacts are exactly what the table difference owes: the group and the users dropped from it |
| `DirectorySinks.UserGoneNotices` | crates/br-util-directory/src/consumer/sink/user.rs:79-86 | A deleted user owes itself and each group it is in |
| `DirectoryTables.NothingOwedIff` | crates/br-util-directory/src/consumer/sink/context.rs:68-72 | Nothing is owed iff the tables did not change, so progress counts changing applies |
| `DirectoryTables.UnchangedIsSilent` | crates/br-util-directory/src/consumer/sink/group.rs:60-62 | An unchanged projection stages nothing and bumps nothing; a change does both |
| `DirectoryTables.RunCovers` | crates/br-util-directory/src/consumer/sink/group.rs:37-157 | Main result: between any two points of any run a pair that is gone named its group and its user, a new pair named its group, and a row that differs named itself |
| `DirectoryTables.GroupProjectionNotices` | crates/br-util-directory/src/consumer/sink/group.rs:63-70 | The impacts of a group projection, exactly: the group iff something moved, and the dropped users; a user that only joined is not named |
| `DirectoryTables.RetractedUserNamesItsGroups` | crates/br-util-directory/src/consumer/sink/user.rs:63-88 | Retracting a known user names it and every group it is in |
| `DirectoryTables.RunKeepsForeignKeys` | crates/br-util-directory/migrations/0001_known_directory.sql:14-18 | Every state of a run has a group row for each membership row |
| `DirectoryTables.TablesFollowCalls` | crates/br-util-directory/src/consumer/sink/context.rs:39-72 | Tables and progress are a function of the start and the calls that succeeded |
| `DirectoryTables.StagerlessTwin` | crates/br-util-directory/src/consumer/sink/context.rs:39-72 | Dropping the stager leaves the same tables and the same progress |
| `DirectoryProjection.WatchOpsFollow` | crates/br-util-nats-fabric/src/kv/consumer.rs:102-157 | The sink calls of a watched stretch of the log build the copy that following it builds |
| `DirectoryProjection.EmptyMirrors` | crates/br-util-directory/migrations/0001_known_directory.sql:1-18 | Fresh tables show empty copies, so every history starts in step |
| `DirectoryProjection.OpMirrors` | crates/br-util-directory/src/consumer/sink/group.rs:37-105 | A sink call that succeeds keeps the tables showing the consumers' copies, keys that name no id left aside |
| `DirectoryProjection.RunMirrors` | crates/br-util-directory/src/consumer/sink/context.rs:39-72 | So does any run of group and user calls, however they interleave and fail |
| `DirectoryProjection.DirectoryShowsTheBucket` | crates/br-util-directory/src/consumer/sink/group.rs:37-157 | Main result, end to end: after a bootstrap and the watched log through the group sink, with nothing missed in between, each watched group's row and members are those of its passing bucket entry, or there are none |
| `DirectoryProjection.DirectoryNamesItsChanges` | crates/br-util-directory/src/consumer/sink/group.rs:63-70 | And between any two points of such a run, what the tables show of a group differs only if its notice was staged |
| `Backoffs.NthFormula` | crates/br-util-nats-fabric/src/consumer/backoff.rs:26-34 | The k-th delay since a reset is min(cap, initial*2^k), the saturating doubling notwithstanding; only the first may pass the cap |
| `Backoffs.Backoff.NextDelay` | crates/br-util-nats-fabric/src/consumer/backoff.rs:30-34 | The object hands out exactly that sequence |
| `Backoffs.Backoff.Reset` | crates/br-util-nats-fabric/src/consumer/backoff.rs:26-28 | A reset starts it over |
| `ConsumeRun.Recovery.Recover` | crates/br-util-nats-fabric/src/consumer/recovery.rs:25-54 | The recovery loop counts, sleeps and rebinds as the history calls for, and gives up exactly where the history is over |
| `ConsumeRun.Run` | crates/br-util-nats-fabric/src/consumer/run.rs:142-186 | The loop makes exactly the calls that are due, and its handler, acks and poison reports are read off the history of those calls |
| `ConsumeLoop.HandledAreTheDecodable` | crates/br-util-nats-fabric/src/consumer/run.rs:165-182 | The handler is given exactly the decodable frames, in order, once each |
| `ConsumeLoop.EveryFrameOnce` | crates/br-util-nats-fabric/src/consumer/run.rs:165-206 | Main result: the acknowledgements are, in order and one each, the delivered frames; the k-th decodable one gets its handler's k-th answer, the others are terminated, and those are exactly the poison reports |
| `ConsumeLoop.AckKindOf` | crates/br-util-nats-fabric/src/consumer/run.rs:188-195 | A frame is settled exactly when its handler said so; a request to retry is sent with its delay, and an outcome the loop does not know asks for a retry without one |
| `ConsumeLoop.VerdictByKind` | crates/br-util-nats-fabric/src/consumer/recovery.rs:57-77 | What the loop does after each kind of answer: missed heartbeats and absent responders are always recovered from, an unclassified failure unless it is the eleventh since the last decoded frame, and every other error ends the run with itself |
| `ConsumeLoop.SinceMeans` | crates/br-util-nats-fabric/src/consumer/recovery.rs:20-23 | The counts since the last decoded frame are counts over the stretch behind it |
| `ConsumeLoop.OthersAreBounded` | crates/br-util-nats-fabric/src/consumer/recovery.rs:20-54 | Main result: with d decoded frames a run sees at most 10(d+1)+1 failures of kind Other, and at most eleven since the last of them, the eleventh of which ends it |
| `ConsumeLoop.GivesUpOnlyOverBudget` | crates/br-util-nats-fabric/src/consumer/recovery.rs:33-38 | A recoverable error ends the run only as the eleventh unclassified one |
| `ConsumeLoop.RecoveryTerminates` | crates/br-util-nats-fabric/src/consumer/recovery.rs:25-54 | With only unclassified or terminal rebind errors, a recovery makes at most eleven rebinds, less what was already counted |
| `ConsumeLoop.RebindDelays` | crates/br-util-nats-fabric/src/consumer/recovery.rs:39-41 | The k-th rebind since the last decoded frame waits min(cap, initial*2^(k-1)) |
| `WatchHealths.WatchHealthChannel.Set` | crates/br-util-nats-fabric/src/kv/health.rs:27-36 | Receivers are told of changes only |
| `Supervisor.Supervise` | crates/br-util-nats-fabric/src/kv/supervisor.rs:15-62 | For every script of reconcile and follow results the loop's calls, sleeps and published health are the history that is due |
| `Supervisor.HealthyExactlyWhileFollowing` | crates/br-util-nats-fabric/src/kv/supervisor.rs:24-62 | What the histories that `Supervise` is proved to produce say event by event: Healthy exactly on a follow, which comes right after a successful reconcile; two reconciles always have a sleep between them |
| `Supervisor.SleepFormula` | crates/br-util-nats-fabric/src/kv/supervisor.rs:25-62 | The k-th sleep since the last progressing follow waits min(cap, initial*2^(k-1)) |
| `Supervisor.SleepsSinceMeans` | crates/br-util-nats-fabric/src/kv/supervisor.rs:50-55 | The sleeps it counts are those behind the last follow that progressed |
| `ProjectorHealths.StreamsMean` | crates/br-util-directory/src/consumer/health.rs:40-70 | Each entry of the stream map is what the history says: present iff the latest guard is held, with the last report since that activation |
| `ProjectorHealths.HealthyIff` | crates/br-util-directory/src/consumer/health.rs:101-107 | Main result: the composed health is Healthy iff the latest activation's guard is held, it has streams, and each one's last report since is Healthy |
| `ProjectorHealths.LateDropsDoNotMatter` | crates/br-util-directory/src/consumer/health.rs:64-70 | The drop of a superseded guard, at any point of any history, changes nothing |
| `ProjectorHealths.ProjectorHealth.Activate` | crates/br-util-directory/src/consumer/health.rs:40-54 | A new activation, one generation up, with every stream degraded; the published value is again the history's |
| `ProjectorHealths.ProjectorHealth.Set` | crates/br-util-directory/src/consumer/health.rs:56-62 | A report, kept only for an active stream; the published value is again the history's |
| `ProjectorHealths.ProjectorHealth.Deactivate` | crates/br-util-directory/src/consumer/health.rs:64-70 | A guard drop; of a superseded guard it leaves the published value alone |

## Left out

- The transports and libraries: NATS connections and JetStream consumers, `sqlx` pools and listeners, tokio, serde, HTTP routes, metrics and logging. They appear only as steps, scripts and answers.
- Payload decoding: a frame or a bucket value comes with what it decodes to; bucket values always decode, consume frames may not.
- UUID values, timestamps, `last_seen_at`, `last_error` texts, correlation ids and causation ids.
- `ScopeDeclarationPipeline::handle` and `declare_scopes` are steps of one state machine, not methods with loops, because their calls interleave with those of other parties; the requester's publish-and-wait loop is the freedom to publish a command and receive a confirmation any number of times.
- A store without a head row: `RegistryStore.Load` models its error, but runs of `ScopeProtocol` start with the head present.
- The `i64`/`u64` width of the registry version, the generation counter and the progress count; the models count without a bound.
- Which of several failing statements a transaction failed at in the registry's save; it is refused as a whole.
- The broker's dedup window: message ids are remembered for ever. A message may be stored at any time after its row was staged, which is more than a broker does.
- `OutboxRelay::run`: waiting on a notification, a timer or the shutdown signal. The schedule it waits on is `OutboxPass.ScheduleAfter`.
- `OutboxSchedule` and `OutboxDraining` are about one relay with no staging during its passes; several relays are in `OutboxRelays`, which proves safety and not progress.
- `PublishedLanguagePublisher::{get_with_revision, update_if, delete_if}` and the ephemeral-auth bucket, thin wrappers over the broker's revisions; `Supervisor` covers their loop.
- Bucket keys that do not parse as KV keys, in listings and entries; and keys that spell one id in two ways: keys are canonical here.
- Concurrent writers to one bucket during a publisher's run, and a failing publisher scan, which writes nothing.
- The service-account sink, which is the user sink without memberships, and the extraction of user extensions.
- The membership diff's element order: impacts are enumerated without repetition, in some order.
- Infinite runs: the consume loop and the supervisor are proved for every finite script, after which their next call stays pending.
- Two threads inside `ProjectorHealth::mutate`: the lock is released before the value is sent, so the model takes mutations one at a time.
- The directory's migration ledger, boot checks, roles, GraphQL and REST edges, sessions, and the code tables.
