/** Any number of relays over one outbox table and one broker that dedups on message ids.
    A relay's transaction is cut at its calls: lock and read a row, publish, commit. It may
    crash anywhere, a publish may be stored while its answer is lost, and a message that was
    under way may be stored at any later time. */
module OutboxRelays {
  import opened Wrappers
  import opened Subjects
  import opened OutboxRows
  import opened OutboxPass

  type RelayId = nat

  datatype Relay =
    | Scanning(cursor: Uuid, left: nat)
    | Holding(left: nat, record: PendingOutbox)
    | Settling(left: nat, record: PendingOutbox, result: PublishResult)

  /** `log` is the broker's message ids in the order they were stored. */
  datatype Outbox = Outbox(table: Table, log: seq<Uuid>, relays: map<RelayId, Relay>)

  /** How a publish ends: answered, stored with the answer lost, or never stored. */
  datatype Delivery = Answered | AnswerLost | NotReached | StreamMissing

  datatype Step =
    | StageRow(id: Uuid, destination: EventCoords, payload: Payload)
    | StartPass(r: RelayId)
    | Fetch(r: RelayId)
    | Publish(r: RelayId, delivery: Delivery)
    | Commit(r: RelayId)
    | Crash(r: RelayId)
    | ArriveLate(id: Uuid)

  function Held(relay: Relay): Option<Uuid> {
    if relay.Scanning? then None else Some(relay.record.id)
  }

  function Locked(s: Outbox): set<Uuid> {
    set r | r in s.relays && Held(s.relays[r]).Some? :: Held(s.relays[r]).value
  }

  /** What a fetch that skips locked rows finds: the least pending row above the cursor that nobody holds. */
  function NextUnlocked(s: Outbox, after: Uuid): Option<Uuid> {
    var ids := PendingAbove(s.table, after) - Locked(s);
    if ids == {} then None else Some(Least(ids))
  }

  predicate Enabled(s: Outbox, step: Step) {
    match step
    case StageRow(_, destination, _) => destination.Valid()
    case StartPass(r) => r !in s.relays
    case Fetch(r) => r in s.relays && s.relays[r].Scanning?
    case Publish(r, _) => r in s.relays && s.relays[r].Holding?
    case Commit(r) => r in s.relays && s.relays[r].Settling?
    case Crash(r) => r in s.relays
    case ArriveLate(id) => id in s.table
  }

  function MessageOf(record: PendingOutbox): Uuid {
    MessageIdFor(record.id, record.payload).0
  }

  function RowMessage(id: Uuid, row: Row): Uuid {
    MessageIdFor(id, row.payload).0
  }

  /** The broker keeps each message id once. */
  function Remember(log: seq<Uuid>, message: Uuid): seq<Uuid> {
    if message in log then log else log + [message]
  }

  /** The broker's part of a publish: what it stores and what the relay hears. */
  function Deliver(log: seq<Uuid>, message: Uuid, delivery: Delivery): (seq<Uuid>, PublishResult) {
    match delivery
    case Answered => (Remember(log, message), if message in log then Duplicate else Stored)
    case AnswerLost => (Remember(log, message), OtherFailure)
    case NotReached => (log, OtherFailure)
    case StreamMissing => (log, NoStream)
  }

  function Apply(s: Outbox, policy: Policy, step: Step): Outbox
    requires Enabled(s, step)
  {
    match step
    case StageRow(id, destination, payload) => s.(table := Stage(s.table, id, destination, payload))
    case StartPass(r) => s.(relays := s.relays[r := Scanning(NIL, policy.Cap())])
    case Crash(r) => s.(relays := s.relays - {r})
    case ArriveLate(id) => s.(log := Remember(s.log, RowMessage(id, s.table[id])))
    case Fetch(r) =>
      var next := if s.relays[r].left == 0 then None else NextUnlocked(s, s.relays[r].cursor);
      if next.None? then s.(relays := s.relays - {r})
      else
        var record := IntoPending(next.value, s.table[next.value]);
        if record.Err? then s.(relays := s.relays - {r})
        else s.(relays := s.relays[r := Holding(s.relays[r].left, record.value)])
    case Publish(r, delivery) =>
      var relay := s.relays[r];
      var (log, result) := Deliver(s.log, MessageOf(relay.record), delivery);
      s.(log := log, relays := s.relays[r := Settling(relay.left, relay.record, result)])
    case Commit(r) =>
      var relay := s.relays[r];
      var id := relay.record.id;
      var t := TransitionFor(relay.record.attempts, policy.maxAttempts, relay.result);
      var table :=
        if id in s.table then s.table[id := s.table[id].(status := t.status, attempts := t.attempts)] else s.table;
      s.(table := table, relays := s.relays[r := Scanning(id, if relay.left == 0 then 0 else relay.left - 1)])
  }

  ghost predicate IsRun(s: Outbox, policy: Policy, steps: seq<Step>)
    decreases |steps|
  {
    steps == [] || (Enabled(s, steps[0]) && IsRun(Apply(s, policy, steps[0]), policy, steps[1..]))
  }

  ghost function After(s: Outbox, policy: Policy, steps: seq<Step>): Outbox
    requires IsRun(s, policy, steps)
    decreases |steps|
  {
    if steps == [] then s else After(Apply(s, policy, steps[0]), policy, steps[1..])
  }

  // ----- the invariant -----

  ghost predicate NoRepeats(log: seq<Uuid>) {
    forall i, j :: 0 <= i < j < |log| ==> log[i] != log[j]
  }

  /** A held row is still exactly the pending row that was read. */
  ghost predicate HolderInv(s: Outbox, relay: Relay) {
    relay.Scanning? ||
    (&& relay.record.id in s.table
     && s.table[relay.record.id].status.Pending?
     && IntoPending(relay.record.id, s.table[relay.record.id]) == Ok(relay.record)
     && (relay.Settling? && relay.result.IsOk() ==> MessageOf(relay.record) in s.log))
  }

  ghost predicate OneHolder(s: Outbox) {
    forall r, q :: r in s.relays && q in s.relays && r != q && Held(s.relays[r]).Some? ==>
      Held(s.relays[r]) != Held(s.relays[q])
  }

  /** Every published row has its message in the log, and the log holds nothing else than
      messages of rows. */
  ghost predicate LogInv(s: Outbox) {
    && NoRepeats(s.log)
    && (forall id :: id in s.table && s.table[id].status.Published? ==> RowMessage(id, s.table[id]) in s.log)
    && forall i :: 0 <= i < |s.log| ==> Owned(s.table, s.log[i])
  }

  /** Some row of the table sends this message. */
  ghost predicate Owned(table: Table, message: Uuid) {
    exists id :: id in table && RowMessage(id, table[id]) == message
  }

  /** Rows that keep their payload keep every message owned. */
  lemma StaysOwned(table: Table, next: Table, message: Uuid)
    requires Owned(table, message)
    requires forall id :: id in table ==> id in next && next[id].payload == table[id].payload
    ensures Owned(next, message)
  {}

  ghost predicate Inv(s: Outbox, policy: Policy) {
    && TableInv(s.table, policy.maxAttempts)
    && (forall r :: r in s.relays ==> HolderInv(s, s.relays[r]))
    && OneHolder(s)
    && LogInv(s)
  }

  ghost predicate Init(s: Outbox) {
    s == Outbox(map[], [], map[])
  }

  // ----- each step keeps it -----

  lemma StageKeeps(s: Outbox, policy: Policy, step: Step)
    requires Inv(s, policy) && Enabled(s, step) && step.StageRow?
    ensures Inv(Apply(s, policy, step), policy)
  {
    hide RowInv, IntoPending;
    var next := Apply(s, policy, step);
    StageKeepsTableInv(s.table, policy.maxAttempts, step.id, step.destination, step.payload);
    forall r | r in next.relays
      ensures HolderInv(next, next.relays[r])
    {
      assert HolderInv(s, s.relays[r]);
    }
    forall i | 0 <= i < |next.log|
      ensures Owned(next.table, next.log[i])
    {
      StaysOwned(s.table, next.table, s.log[i]);
    }
  }

  lemma FetchKeeps(s: Outbox, policy: Policy, r: RelayId)
    requires Inv(s, policy) && Enabled(s, Fetch(r))
    ensures Inv(Apply(s, policy, Fetch(r)), policy)
  {
    hide RowInv, LogInv;
    var next := Apply(s, policy, Fetch(r));
    var found := if s.relays[r].left == 0 then None else NextUnlocked(s, s.relays[r].cursor);
    if found.Some? {
      ReadableRow(found.value, s.table[found.value], policy.maxAttempts);
      hide IntoPending;
      assert found.value !in Locked(s);
    }
    assert LogInv(next) by { SameLogInv(s, next); }
    forall q | q in next.relays
      ensures HolderInv(next, next.relays[q])
    {
      if q != r {
        assert HolderInv(s, s.relays[q]);
      }
    }
    forall p, q | p in next.relays && q in next.relays && p != q && Held(next.relays[p]).Some?
      ensures Held(next.relays[p]) != Held(next.relays[q])
    {
      assert q != r && Held(s.relays[q]).Some? ==> Held(s.relays[q]).value in Locked(s);
      assert p != r ==> Held(s.relays[p]).value in Locked(s);
    }
  }

  /** A fetch holds the least pending row above the cursor that no other relay holds, as it is,
      and comes back empty only if there is none or the pass is spent. */
  lemma FetchTakesTheNextFree(s: Outbox, policy: Policy, r: RelayId, id: Uuid)
    requires Inv(s, policy) && Enabled(s, Fetch(r))
    requires id in PendingAbove(s.table, s.relays[r].cursor)
    requires forall q :: q in s.relays ==> Held(s.relays[q]) != Some(id)
    ensures var next := Apply(s, policy, Fetch(r));
            if s.relays[r].left == 0 then r !in next.relays
            else
              && r in next.relays && next.relays[r].Holding?
              && var record := next.relays[r].record;
                 && record.id <= id && record.id in PendingAbove(s.table, s.relays[r].cursor)
                 && (forall q :: q in s.relays ==> Held(s.relays[q]) != Some(record.id))
                 && IntoPending(record.id, s.table[record.id]) == Ok(record)
  {
    hide RowInv, LogInv, OneHolder, HolderInv;
    if s.relays[r].left > 0 {
      assert id in PendingAbove(s.table, s.relays[r].cursor) - Locked(s);
      var found := NextUnlocked(s, s.relays[r].cursor).value;
      ReadableRow(found, s.table[found], policy.maxAttempts);
      hide IntoPending;
    }
  }

  lemma SameLogInv(s: Outbox, next: Outbox)
    requires LogInv(s) && next.table == s.table && next.log == s.log
    ensures LogInv(next)
  {}

  lemma PublishKeeps(s: Outbox, policy: Policy, r: RelayId, delivery: Delivery)
    requires Inv(s, policy) && Enabled(s, Publish(r, delivery))
    ensures Inv(Apply(s, policy, Publish(r, delivery)), policy)
  {
    hide RowInv, IntoPending;
    var next := Apply(s, policy, Publish(r, delivery));
    var record := s.relays[r].record;
    assert HolderInv(s, s.relays[r]);
    RecordMessage(record.id, s.table[record.id], record);
    assert s.log <= next.log && forall m :: m in s.log ==> m in next.log;
    forall q | q in next.relays
      ensures HolderInv(next, next.relays[q])
    {
      assert HolderInv(s, s.relays[q]);
    }
    forall p, q | p in next.relays && q in next.relays && p != q && Held(next.relays[p]).Some?
      ensures Held(next.relays[p]) != Held(next.relays[q])
    {
      assert Held(next.relays[p]) == Held(s.relays[p]) && Held(next.relays[q]) == Held(s.relays[q]);
    }
    forall i | 0 <= i < |next.log|
      ensures Owned(next.table, next.log[i])
    {
      if i < |s.log| {
        assert next.log[i] == s.log[i];
      } else {
        assert next.log[i] == RowMessage(record.id, next.table[record.id]);
      }
    }
  }

  lemma RecordMessage(id: Uuid, row: Row, record: PendingOutbox)
    requires IntoPending(id, row) == Ok(record)
    ensures MessageOf(record) == RowMessage(id, row)
  {}

  /** The one step that writes a row: the holder's transition on the row as it was read. */
  lemma CommitSettles(s: Outbox, policy: Policy, r: RelayId)
    requires Inv(s, policy) && Enabled(s, Commit(r))
    ensures var relay, next := s.relays[r], Apply(s, policy, Commit(r));
            var id := relay.record.id;
            && id in s.table && s.table[id].status.Pending?
            && next.table == s.table[id := Settle(s.table[id], policy.maxAttempts, relay.result)]
            && RowMessage(id, next.table[id]) == RowMessage(id, s.table[id])
            && (next.table[id].status.Published? <==> relay.result.IsOk())
            && (relay.result.IsOk() ==> RowMessage(id, next.table[id]) in s.log)
            && TableInv(next.table, policy.maxAttempts)
  {
    var relay := s.relays[r];
    var id := relay.record.id;
    assert HolderInv(s, relay);
    RecordMessage(id, s.table[id], relay.record);
    SettleKeepsRowInv(s.table[id], policy.maxAttempts, relay.result);
  }

  lemma CommitKeeps(s: Outbox, policy: Policy, r: RelayId)
    requires Inv(s, policy) && Enabled(s, Commit(r))
    ensures Inv(Apply(s, policy, Commit(r)), policy)
  {
    hide RowInv, IntoPending, Settle, TransitionFor;
    CommitSettles(s, policy, r);
    var next := Apply(s, policy, Commit(r));
    var id := s.relays[r].record.id;
    forall q | q in next.relays
      ensures HolderInv(next, next.relays[q])
    {
      if q != r {
        assert HolderInv(s, s.relays[q]);
        assert Held(s.relays[r]) != Held(s.relays[q]);
      }
    }
    forall p, q | p in next.relays && q in next.relays && p != q && Held(next.relays[p]).Some?
      ensures Held(next.relays[p]) != Held(next.relays[q])
    {
      assert Held(s.relays[p]) == Held(next.relays[p]);
    }
    forall i | 0 <= i < |next.log|
      ensures Owned(next.table, next.log[i])
    {
      StaysOwned(s.table, next.table, s.log[i]);
    }
  }

  lemma ArrivalKeeps(s: Outbox, policy: Policy, id: Uuid)
    requires Inv(s, policy) && Enabled(s, ArriveLate(id))
    ensures Inv(Apply(s, policy, ArriveLate(id)), policy)
  {
    hide RowInv, IntoPending, RowMessage, MessageOf;
    var next := Apply(s, policy, ArriveLate(id));
    assert s.log <= next.log && forall m :: m in s.log ==> m in next.log;
    forall q | q in next.relays
      ensures HolderInv(next, next.relays[q])
    {
      assert HolderInv(s, s.relays[q]);
    }
    forall i | 0 <= i < |next.log|
      ensures Owned(next.table, next.log[i])
    {
      if i < |s.log| {
        assert next.log[i] == s.log[i];
      } else {
        assert next.log[i] == RowMessage(id, next.table[id]);
      }
    }
  }

  lemma StepKeepsInv(s: Outbox, policy: Policy, step: Step)
    requires Inv(s, policy) && Enabled(s, step)
    ensures Inv(Apply(s, policy, step), policy)
  {
    match step
    case StageRow(_, _, _) => StageKeeps(s, policy, step);
    case Fetch(r) => FetchKeeps(s, policy, r);
    case Publish(r, delivery) => PublishKeeps(s, policy, r, delivery);
    case Commit(r) => CommitKeeps(s, policy, r);
    case ArriveLate(id) => ArrivalKeeps(s, policy, id);
    case _ =>
      hide RowInv, IntoPending, LogInv, TableInv;
      var next := Apply(s, policy, step);
      assert LogInv(next) by { SameLogInv(s, next); }
      forall q | q in next.relays
        ensures HolderInv(next, next.relays[q])
      {
        assert q in s.relays ==> HolderInv(s, s.relays[q]);
      }
  }

  // ----- whole runs -----

  /** Rows stay; their subject and payload never change; a terminal row never changes at
      all; and what the broker stored stays stored. */
  ghost predicate Forward(a: Outbox, b: Outbox) {
    && (forall id :: id in a.table ==>
          && id in b.table
          && b.table[id].subject == a.table[id].subject && b.table[id].payload == a.table[id].payload
          && (a.table[id].status.IsTerminal() ==> b.table[id] == a.table[id])
          && a.table[id].attempts <= b.table[id].attempts)
    && a.log <= b.log
  }

  lemma CommitForward(s: Outbox, policy: Policy, r: RelayId)
    requires Inv(s, policy) && Enabled(s, Commit(r))
    ensures Forward(s, Apply(s, policy, Commit(r)))
  {
    hide IntoPending, Settle, TransitionFor, LogInv, OneHolder, HolderInv;
    CommitSettles(s, policy, r);
    var relay := s.relays[r];
    SettleKeepsRowInv(s.table[relay.record.id], policy.maxAttempts, relay.result);
  }

  lemma OtherForward(s: Outbox, policy: Policy, step: Step)
    requires Enabled(s, step) && !step.Commit?
    ensures Forward(s, Apply(s, policy, step))
  {
    hide IntoPending, NextUnlocked, Locked, MessageOf, RowMessage;
    match step
    case StageRow(_, _, _) =>
    case Publish(_, _) =>
    case Commit(_) =>
    case ArriveLate(_) =>
    case _ =>
      assert Apply(s, policy, step).table == s.table && Apply(s, policy, step).log == s.log;
  }

  lemma StepForward(s: Outbox, policy: Policy, step: Step)
    requires Inv(s, policy) && Enabled(s, step)
    ensures Forward(s, Apply(s, policy, step))
  {
    hide Inv, Forward, Apply;
    if step.Commit? {
      CommitForward(s, policy, step.r);
    } else {
      OtherForward(s, policy, step);
    }
  }

  lemma ForwardTransitive(a: Outbox, b: Outbox, c: Outbox)
    requires Forward(a, b) && Forward(b, c)
    ensures Forward(a, c)
  {}

  lemma {:induction false} RunKeepsInv(s: Outbox, policy: Policy, steps: seq<Step>)
    requires Inv(s, policy) && IsRun(s, policy, steps)
    ensures Inv(After(s, policy, steps), policy) && Forward(s, After(s, policy, steps))
    decreases |steps|
  {
    if steps != [] {
      hide Inv, Forward, Apply, Enabled;
      StepKeepsInv(s, policy, steps[0]);
      StepForward(s, policy, steps[0]);
      RunKeepsInv(Apply(s, policy, steps[0]), policy, steps[1..]);
      ForwardTransitive(s, Apply(s, policy, steps[0]), After(s, policy, steps));
    } else {
      ForwardReflexive(s);
    }
  }

  lemma ForwardReflexive(s: Outbox)
    ensures Forward(s, s)
  {}

  /** In every state of every run, whatever crashed and whatever answer was lost: a published
      row is in the broker log, no message is stored twice, no two relays hold one row, and
      every row keeps its attempt bounds. */
  lemma DeliveryIsSafe(start: Outbox, policy: Policy, steps: seq<Step>)
    requires Init(start) && IsRun(start, policy, steps)
    ensures var s := After(start, policy, steps);
            && LogInv(s) && OneHolder(s) && TableInv(s.table, policy.maxAttempts)
  {
    RunKeepsInv(start, policy, steps);
  }

  /** From any reachable state on, terminal rows are frozen and stored messages stay. */
  lemma TerminalRowsAreFrozen(start: Outbox, policy: Policy, steps: seq<Step>, more: seq<Step>)
    requires Init(start) && IsRun(start, policy, steps) && IsRun(After(start, policy, steps), policy, more)
    ensures Forward(After(start, policy, steps), After(After(start, policy, steps), policy, more))
  {
    RunKeepsInv(start, policy, steps);
    RunKeepsInv(After(start, policy, steps), policy, more);
  }

  // ----- what the log holds -----

  /** The message a step brings to the broker, if it brings one there. */
  ghost function Reaches(s: Outbox, step: Step): Option<Uuid>
    requires Enabled(s, step)
  {
    match step
    case Publish(r, Answered) => Some(MessageOf(s.relays[r].record))
    case Publish(r, AnswerLost) => Some(MessageOf(s.relays[r].record))
    case ArriveLate(id) => Some(RowMessage(id, s.table[id]))
    case _ => None
  }

  /** Some step of the run brings the message to the broker. */
  ghost predicate ReachedIn(s: Outbox, policy: Policy, steps: seq<Step>, message: Uuid)
    requires IsRun(s, policy, steps)
    decreases |steps|
  {
    steps != [] &&
    (Reaches(s, steps[0]) == Some(message) || ReachedIn(Apply(s, policy, steps[0]), policy, steps[1..], message))
  }

  lemma StepLogs(s: Outbox, policy: Policy, step: Step, message: Uuid)
    requires Enabled(s, step)
    ensures message in Apply(s, policy, step).log <==> message in s.log || Reaches(s, step) == Some(message)
  {
    hide IntoPending, NextUnlocked, TransitionFor, MessageOf, RowMessage;
  }

  /** The log holds what it held before and what was brought to the broker, nothing else. */
  lemma {:induction false} LogIsWhatReachedIt(s: Outbox, policy: Policy, steps: seq<Step>, message: Uuid)
    requires IsRun(s, policy, steps)
    ensures message in After(s, policy, steps).log <==> message in s.log || ReachedIn(s, policy, steps, message)
    decreases |steps|
  {
    if steps != [] {
      StepLogs(s, policy, steps[0], message);
      hide Apply, Reaches, Enabled;
      LogIsWhatReachedIt(Apply(s, policy, steps[0]), policy, steps[1..], message);
    }
  }

  /** What the status of a row says about its message, in every state of every run: the message
      is undelivered exactly when none of its publishes and none of its late arrivals reached
      the broker, which for a published row cannot be and for a failed row may go either way. */
  lemma UndeliveredIff(start: Outbox, policy: Policy, steps: seq<Step>, id: Uuid)
    requires Init(start) && IsRun(start, policy, steps) && id in After(start, policy, steps).table
    ensures var s := After(start, policy, steps);
            var message := RowMessage(id, s.table[id]);
            && (message !in s.log <==> !ReachedIn(start, policy, steps, message))
            && (s.table[id].status.Published? ==> ReachedIn(start, policy, steps, message))
  {
    hide Inv, Forward;
    LogIsWhatReachedIt(start, policy, steps, RowMessage(id, After(start, policy, steps).table[id]));
    DeliveryIsSafe(start, policy, steps);
  }

  /** Whenever the last attempt is stored and its answer lost, the row ends FAILED with its
      message in the log. */
  lemma LostLastAnswerFails(s: Outbox, policy: Policy, r: RelayId)
    requires Inv(s, policy) && r in s.relays && s.relays[r].Holding?
    requires s.relays[r].record.attempts + 1 == AtLeastOne(policy.maxAttempts)
    ensures var published := Apply(s, policy, Publish(r, AnswerLost));
            var id := s.relays[r].record.id;
            && Enabled(published, Commit(r)) && id in Apply(published, policy, Commit(r)).table
            && Apply(published, policy, Commit(r)).table[id].status.Failed?
            && RowMessage(id, s.table[id]) in Apply(published, policy, Commit(r)).log
  {
    hide RowInv;
    var record := s.relays[r].record;
    assert HolderInv(s, s.relays[r]);
    RecordMessage(record.id, s.table[record.id], record);
  }

  const HERE := EventCoords("a", "b", "c", 1)
  const BODY := Payload(Absent, "")
  const ONCE := Policy(1, 1)

  /** One attempt, by one relay, on one staged row. */
  function OneAttempt(delivery: Delivery): seq<Step> {
    [StageRow(1, HERE, BODY), StartPass(0), Fetch(0), Publish(0, delivery), Commit(0)]
  }

  /** The one row of that run, as staged and as given up on. */
  function TheRow(status: OutboxStatus, attempts: int): Table {
    map[1 := Row(EventSubject(HERE), BODY, status, attempts)]
  }

  lemma StagedAndFetched()
    ensures var staged := Outbox(TheRow(Pending, 0), [], map[]);
            var scanning := Outbox(TheRow(Pending, 0), [], map[0 := Scanning(NIL, 1)]);
            && HERE.Valid() && Apply(Outbox(map[], [], map[]), ONCE, StageRow(1, HERE, BODY)) == staged
            && Apply(staged, ONCE, StartPass(0)) == scanning
            && Apply(scanning, ONCE, Fetch(0))
               == Outbox(TheRow(Pending, 0), [], map[0 := Holding(1, PendingOutbox(1, HERE, BODY, 0))])
  {
    hide EventSubject, ParseEventSubject;
    assert HERE.Valid();
    StagedDestination(map[], 1, HERE, BODY);
    var scanning := Outbox(TheRow(Pending, 0), [], map[0 := Scanning(NIL, 1)]);
    assert PendingAbove(scanning.table, NIL) - Locked(scanning) == {1};
    assert NextUnlocked(scanning, NIL) == Some(1);
  }

  lemma PublishedAndGivenUp(delivery: Delivery)
    requires delivery.AnswerLost? || delivery.NotReached?
    ensures var holding := Outbox(TheRow(Pending, 0), [], map[0 := Holding(1, PendingOutbox(1, HERE, BODY, 0))]);
            var log := if delivery.AnswerLost? then [1] else [];
            var settling :=
              Outbox(TheRow(Pending, 0), log, map[0 := Settling(1, PendingOutbox(1, HERE, BODY, 0), OtherFailure)]);
            && Apply(holding, ONCE, Publish(0, delivery)) == settling
            && Apply(settling, ONCE, Commit(0)) == Outbox(TheRow(Failed, 1), log, map[0 := Scanning(1, 0)])
  {
    hide EventSubject;
  }

  lemma OneAttemptRuns(delivery: Delivery)
    requires delivery.AnswerLost? || delivery.NotReached?
    ensures var start := Outbox(map[], [], map[]);
            && IsRun(start, ONCE, OneAttempt(delivery))
            && After(start, ONCE, OneAttempt(delivery)).table == TheRow(Failed, 1)
            && After(start, ONCE, OneAttempt(delivery)).log == (if delivery.AnswerLost? then [1] else [])
  {
    hide Apply, EventSubject;
    StagedAndFetched();
    PublishedAndGivenUp(delivery);
    var start, steps := Outbox(map[], [], map[]), OneAttempt(delivery);
    var staged := Apply(start, ONCE, steps[0]);
    var scanning := Apply(staged, ONCE, steps[1]);
    var holding := Apply(scanning, ONCE, steps[2]);
    var settling := Apply(holding, ONCE, steps[3]);
    OneStep(settling, ONCE, steps[4], []);
    OneStep(holding, ONCE, steps[3], [steps[4]]);
    OneStep(scanning, ONCE, steps[2], [steps[3], steps[4]]);
    OneStep(staged, ONCE, steps[1], [steps[2], steps[3], steps[4]]);
    OneStep(start, ONCE, steps[0], [steps[1], steps[2], steps[3], steps[4]]);
    assert [steps[3]] + [steps[4]] == [steps[3], steps[4]];
    assert [steps[2]] + [steps[3], steps[4]] == [steps[2], steps[3], steps[4]];
    assert [steps[1]] + [steps[2], steps[3], steps[4]] == [steps[1], steps[2], steps[3], steps[4]];
    assert [steps[0]] + [steps[1], steps[2], steps[3], steps[4]] == steps;
  }

  lemma OneStep(s: Outbox, policy: Policy, step: Step, rest: seq<Step>)
    requires Enabled(s, step) && IsRun(Apply(s, policy, step), policy, rest)
    ensures IsRun(s, policy, [step] + rest)
    ensures After(s, policy, [step] + rest) == After(Apply(s, policy, step), policy, rest)
  {
    assert ([step] + rest)[1..] == rest;
  }

  /** FAILED decides neither way: with a single attempt, a run whose answer is lost ends FAILED
      with the message stored, and a run that never reached the broker ends FAILED without. */
  lemma FailedMayBeDelivered(delivery: Delivery)
    requires delivery.AnswerLost? || delivery.NotReached?
    ensures var start := Outbox(map[], [], map[]);
            && Init(start) && IsRun(start, ONCE, OneAttempt(delivery))
            && var s := After(start, ONCE, OneAttempt(delivery));
               && 1 in s.table && s.table[1].status.Failed?
               && (RowMessage(1, s.table[1]) in s.log <==> delivery.AnswerLost?)
  {
    hide EventSubject;
    OneAttemptRuns(delivery);
  }
}
