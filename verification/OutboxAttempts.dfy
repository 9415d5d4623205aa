/** What the relays get done: where each attempt leads, how far a pass goes among other relays,
    and that an undisturbed relay's steps are the walk of one pass. */
module OutboxAttempts {
  import opened Wrappers
  import opened OutboxRows
  import opened OutboxPass
  import opened OutboxRelays

  // ----- one attempt -----

  /** What a relay hears: a publish that is answered tells it whether the broker had the message
      already, any other failure is one, and a missing stream is told apart. */
  lemma PublishHears(s: Outbox, policy: Policy, r: RelayId, delivery: Delivery)
    requires Enabled(s, Publish(r, delivery))
    ensures var relay, next := s.relays[r], Apply(s, policy, Publish(r, delivery));
            && next.table == s.table
            && next.relays == s.relays[r := Settling(relay.left, relay.record,
                 match delivery
                 case Answered => if MessageOf(relay.record) in s.log then Duplicate else Stored
                 case AnswerLost => OtherFailure
                 case NotReached => OtherFailure
                 case StreamMissing => NoStream)]
  {}

  function Attempt(s: Outbox, policy: Policy, r: RelayId, delivery: Delivery): Outbox
    requires Enabled(s, Publish(r, delivery))
  {
    Apply(Apply(s, policy, Publish(r, delivery)), policy, Commit(r))
  }

  /** Where an attempt leads. An answered publish makes the row PUBLISHED, also when the broker had
      its message already; a missing stream leaves the row as it was; any other failure counts,
      and the row is FAILED once the configured attempts are used up. No other row moves, and the
      relay goes on behind this one with one row less to go. */
  lemma AttemptLeads(s: Outbox, policy: Policy, r: RelayId, delivery: Delivery)
    requires Inv(s, policy) && Enabled(s, Publish(r, delivery))
    ensures var relay, next := s.relays[r], Attempt(s, policy, r, delivery);
            var id := relay.record.id;
            && id in s.table
            && var row := s.table[id];
               && next.table == s.table[id :=
                    match delivery
                    case Answered => row.(status := OutboxStatus.Published, attempts := row.attempts + 1)
                    case StreamMissing => row
                    case _ => row.(
                      status := if row.attempts + 1 >= policy.maxAttempts then OutboxStatus.Failed else Pending,
                      attempts := row.attempts + 1)]
               && next.relays == s.relays[r := Scanning(id, if relay.left == 0 then 0 else relay.left - 1)]
  {
    hide IntoPending, RowMessage, MessageOf, Inv, RowInv, Settle, TransitionFor;
    HeldRowInv(s, policy, r);
    var relay, heard := s.relays[r], Apply(s, policy, Publish(r, delivery));
    PublishKeeps(s, policy, r, delivery);
    PublishHears(s, policy, r, delivery);
    CommitSettles(heard, policy, r);
    SettledRow(s.table[relay.record.id], policy.maxAttempts, heard.relays[r].result);
  }

  /** A pending row after an attempt, in plain terms. */
  lemma SettledRow(row: Row, maxAttempts: U32, result: PublishResult)
    requires RowInv(row, maxAttempts) && row.status.Pending?
    ensures Settle(row, maxAttempts, result) ==
            match result
            case NoStream => row
            case OtherFailure => row.(
              status := if row.attempts + 1 >= maxAttempts then OutboxStatus.Failed else Pending,
              attempts := row.attempts + 1)
            case _ => row.(status := OutboxStatus.Published, attempts := row.attempts + 1)
  {
    SettleKeepsRowInv(row, maxAttempts, result);
  }

  lemma HeldRowInv(s: Outbox, policy: Policy, r: RelayId)
    requires Inv(s, policy) && r in s.relays && !s.relays[r].Scanning?
    ensures var id := s.relays[r].record.id;
            id in s.table && RowInv(s.table[id], policy.maxAttempts) && s.table[id].status.Pending?
  {
    assert HolderInv(s, s.relays[r]);
  }

  /** A crash frees the row its relay held, and changes nothing else. */
  lemma CrashFrees(s: Outbox, policy: Policy, r: RelayId)
    requires Inv(s, policy) && Enabled(s, Crash(r))
    ensures var next := Apply(s, policy, Crash(r));
            && next == s.(relays := s.relays - {r})
            && (Held(s.relays[r]).Some? ==> Held(s.relays[r]).value !in Locked(next))
  {
    hide HolderInv, LogInv, TableInv;
    var next := Apply(s, policy, Crash(r));
    forall q | q in next.relays && Held(s.relays[r]).Some?
      ensures Held(next.relays[q]) != Held(s.relays[r])
    {
      assert Held(s.relays[q]) != Held(s.relays[r]);
    }
  }

  // ----- one pass among others -----

  /** The id below which a relay's pass does not look again. */
  function Floor(relay: Relay): Uuid {
    if relay.Scanning? then relay.cursor else relay.record.id
  }

  /** How many rows the pass may still take. */
  function Room(relay: Relay): nat {
    if relay.Scanning? then relay.left else if relay.left == 0 then 0 else relay.left - 1
  }

  /** The row that a step makes the relay take. */
  ghost function Takes(s: Outbox, policy: Policy, step: Step, r: RelayId): Option<Uuid>
    requires Enabled(s, step)
  {
    var next := Apply(s, policy, step);
    if step == Fetch(r) && r in next.relays && next.relays[r].Holding? then Some(next.relays[r].record.id) else None
  }

  ghost function Taken(s: Outbox, policy: Policy, steps: seq<Step>, r: RelayId): seq<Uuid>
    requires IsRun(s, policy, steps)
    decreases |steps|
  {
    if steps == [] then []
    else
      var rest := Taken(Apply(s, policy, steps[0]), policy, steps[1..], r);
      match Takes(s, policy, steps[0], r)
      case None => rest
      case Some(id) => [id] + rest
  }

  lemma StepMovesOn(s: Outbox, policy: Policy, step: Step, r: RelayId)
    requires Enabled(s, step) && step != StartPass(r)
    ensures var next := Apply(s, policy, step);
            if r !in s.relays then r !in next.relays && Takes(s, policy, step, r).None?
            else
              match Takes(s, policy, step, r)
              case None =>
                r in next.relays ==>
                  Floor(s.relays[r]) <= Floor(next.relays[r]) && Room(next.relays[r]) <= Room(s.relays[r])
              case Some(id) =>
                && r in next.relays && Floor(next.relays[r]) == id > Floor(s.relays[r])
                && Room(next.relays[r]) == Room(s.relays[r]) - 1
  {
    hide TransitionFor, RowMessage, MessageOf, Deliver;
  }

  lemma NoneIncreasing()
    ensures Increasing([])
  {}

  lemma IncreasingCons(id: Uuid, rest: seq<Uuid>)
    requires Increasing(rest) && forall other :: other in rest ==> other > id
    ensures Increasing([id] + rest)
  {
    forall i, j | 0 <= i < j < |[id] + rest|
      ensures ([id] + rest)[i] < ([id] + rest)[j]
    {
      assert ([id] + rest)[j] == rest[j - 1] && rest[j - 1] in rest;
    }
  }

  lemma {:induction false} TakenMovesOn(s: Outbox, policy: Policy, steps: seq<Step>, r: RelayId)
    requires IsRun(s, policy, steps) && StartPass(r) !in steps
    ensures r !in s.relays ==> Taken(s, policy, steps, r) == []
    ensures r in s.relays ==>
              && Increasing(Taken(s, policy, steps, r)) && |Taken(s, policy, steps, r)| <= Room(s.relays[r])
              && forall id :: id in Taken(s, policy, steps, r) ==> id > Floor(s.relays[r])
    decreases |steps|
  {
    if steps != [] {
      StepMovesOn(s, policy, steps[0], r);
      hide Apply, Enabled, Takes, Floor, Room, Increasing;
      TakenMovesOn(Apply(s, policy, steps[0]), policy, steps[1..], r);
      if Takes(s, policy, steps[0], r).Some? {
        IncreasingCons(Takes(s, policy, steps[0], r).value, Taken(Apply(s, policy, steps[0]), policy, steps[1..], r));
      }
    } else {
      assert Increasing([]) by { NoneIncreasing(); }
    }
  }

  /** Whatever the other relays do, one pass takes rows in strictly rising id order, above nil,
      and at most the cap of them. */
  lemma PassIsBounded(s: Outbox, policy: Policy, steps: seq<Step>, r: RelayId)
    requires Enabled(s, StartPass(r)) && IsRun(Apply(s, policy, StartPass(r)), policy, steps)
    requires StartPass(r) !in steps
    ensures var taken := Taken(Apply(s, policy, StartPass(r)), policy, steps, r);
            Increasing(taken) && |taken| <= policy.Cap() && forall id :: id in taken ==> id > NIL
  {
    TakenMovesOn(Apply(s, policy, StartPass(r)), policy, steps, r);
  }

  // ----- one pass alone -----

  /** The broker's answer to a publish, as far as the row is concerned. */
  function AnswerOf(delivery: Delivery): PublishResult {
    match delivery
    case Answered => Stored
    case AnswerLost => OtherFailure
    case NotReached => OtherFailure
    case StreamMissing => NoStream
  }

  function AnswersTo(deliveries: Uuid -> Delivery): Answers {
    (id: Uuid) => AnswerOf(deliveries(id))
  }

  /** A relay's steps over the rows it visits, and the fetch that ends its pass. */
  function PassSteps(r: RelayId, deliveries: Uuid -> Delivery, visited: seq<Uuid>): seq<Step> {
    if visited == [] then [Fetch(r)]
    else [Fetch(r), Publish(r, deliveries(visited[0])), Commit(r)] + PassSteps(r, deliveries, visited[1..])
  }

  ghost predicate Alone(s: Outbox, r: RelayId) {
    s.relays.Keys == {r} && s.relays[r].Scanning?
  }

  lemma NothingLocked(s: Outbox, r: RelayId)
    requires Alone(s, r)
    ensures Locked(s) == {}
    ensures NextUnlocked(s, s.relays[r].cursor) == NextPending(s.table, s.relays[r].cursor)
  {
    var ids := PendingAbove(s.table, s.relays[r].cursor);
    assert ids - Locked(s) == ids;
  }

  /** The steps of one row, each enabled where it is taken. */
  ghost predicate Serves(s: Outbox, policy: Policy, r: RelayId, delivery: Delivery, next: Outbox) {
    && Enabled(s, Fetch(r))
    && var fetched := Apply(s, policy, Fetch(r));
       && Enabled(fetched, Publish(r, delivery))
       && Enabled(Apply(fetched, policy, Publish(r, delivery)), Commit(r))
       && next == Attempt(fetched, policy, r, delivery)
  }

  lemma ServesRuns(s: Outbox, policy: Policy, r: RelayId, delivery: Delivery, next: Outbox)
    requires Serves(s, policy, r, delivery, next)
    ensures IsRun(s, policy, [Fetch(r), Publish(r, delivery), Commit(r)])
    ensures After(s, policy, [Fetch(r), Publish(r, delivery), Commit(r)]) == next
  {
    var fetched := Apply(s, policy, Fetch(r));
    var heard := Apply(fetched, policy, Publish(r, delivery));
    hide Apply, Enabled;
    assert IsRun(next, policy, []) && After(next, policy, []) == next;
    OneStep(heard, policy, Commit(r), []);
    assert [Commit(r)] + [] == [Commit(r)];
    OneStep(fetched, policy, Publish(r, delivery), [Commit(r)]);
    assert [Publish(r, delivery)] + [Commit(r)] == [Publish(r, delivery), Commit(r)];
    OneStep(s, policy, Fetch(r), [Publish(r, delivery), Commit(r)]);
    assert [Fetch(r)] + [Publish(r, delivery), Commit(r)] == [Fetch(r), Publish(r, delivery), Commit(r)];
  }

  lemma Fetched(s: Outbox, policy: Policy, r: RelayId, id: Uuid)
    requires Inv(s, policy) && Alone(s, r) && s.relays[r].left > 0
    requires NextPending(s.table, s.relays[r].cursor) == Some(id)
    ensures IntoPending(id, s.table[id]).Ok?
    ensures Apply(s, policy, Fetch(r)) ==
            s.(relays := map[r := Holding(s.relays[r].left, IntoPending(id, s.table[id]).value)])
    ensures IntoPending(id, s.table[id]).value.id == id
  {
    hide LogInv, OneHolder, Locked, NextUnlocked;
    NothingLocked(s, r);
    ReadableRow(id, s.table[id], policy.maxAttempts);
  }

  /** One row of an undisturbed pass. */
  lemma OneRow(s: Outbox, policy: Policy, r: RelayId, deliveries: Uuid -> Delivery, id: Uuid) returns (next: Outbox)
    requires Inv(s, policy) && Alone(s, r) && s.relays[r].left > 0
    requires NextPending(s.table, s.relays[r].cursor) == Some(id)
    ensures Serves(s, policy, r, deliveries(id), next) && Inv(next, policy)
    ensures next.relays == map[r := Scanning(id, s.relays[r].left - 1)]
    ensures next.table == Settled(s.table, policy, AnswersTo(deliveries), id)
  {
    hide IntoPending, RowMessage, MessageOf, Inv, Settle, NextUnlocked, Locked;
    Fetched(s, policy, r, id);
    var fetched := Apply(s, policy, Fetch(r));
    FetchKeeps(s, policy, r);
    var heard := Apply(fetched, policy, Publish(r, deliveries(id)));
    PublishKeeps(fetched, policy, r, deliveries(id));
    PublishHears(fetched, policy, r, deliveries(id));
    CommitSettles(heard, policy, r);
    CommitKeeps(heard, policy, r);
    next := Apply(heard, policy, Commit(r));
    SameSettlement(s.table[id], policy.maxAttempts, heard.relays[r].result, AnswerOf(deliveries(id)));
  }

  /** A row does not tell a duplicate from a first acceptance. */
  lemma SameSettlement(row: Row, maxAttempts: U32, a: PublishResult, b: PublishResult)
    requires a == b || (a.IsOk() && b.IsOk())
    ensures Settle(row, maxAttempts, a) == Settle(row, maxAttempts, b)
  {}

  lemma {:induction false} RunsInTurn(s: Outbox, policy: Policy, a: seq<Step>, b: seq<Step>)
    requires IsRun(s, policy, a) && IsRun(After(s, policy, a), policy, b)
    ensures IsRun(s, policy, a + b) && After(s, policy, a + b) == After(After(s, policy, a), policy, b)
    decreases |a|
  {
    hide Apply, Enabled;
    if a == [] {
      assert a + b == b;
    } else {
      RunsInTurn(Apply(s, policy, a[0]), policy, a[1..], b);
      assert (a + b)[1..] == a[1..] + b && (a + b)[0] == a[0];
    }
  }

  /** The steps of an undisturbed relay are the walk of one pass, whatever becomes of each of its
      publishes: same rows, same order, same table at the end. */
  lemma {:induction false} SoloPassIsTheWalk(s: Outbox, policy: Policy, r: RelayId, deliveries: Uuid -> Delivery)
    requires Inv(s, policy) && Alone(s, r)
    ensures var walk := WalkFrom(s.table, policy, AnswersTo(deliveries), s.relays[r].cursor, s.relays[r].left);
            && IsRun(s, policy, PassSteps(r, deliveries, walk.visited))
            && var end := After(s, policy, PassSteps(r, deliveries, walk.visited));
               end.table == walk.table && end.relays == map[]
    decreases s.relays[r].left
  {
    hide IntoPending, Inv, Settle, Apply, Enabled, NextPending, AnswersTo;
    var answers := AnswersTo(deliveries);
    var cursor, left := s.relays[r].cursor, s.relays[r].left;
    if left == 0 || NextPending(s.table, cursor).None? {
      assert WalkFrom(s.table, policy, answers, cursor, left) == Walk(s.table, [], None);
      EndsThePass(s, policy, r);
    } else {
      var id := NextPending(s.table, cursor).value;
      WalkUnfold(s.table, policy, answers, cursor, left);
      hide WalkFrom, Serves;
      Fetched(s, policy, r, id);
      var next := OneRow(s, policy, r, deliveries, id);
      ServesRuns(s, policy, r, deliveries(id), next);
      SoloPassIsTheWalk(next, policy, r, deliveries);
      var rest := WalkFrom(next.table, policy, answers, id, left - 1).visited;
      RunsInTurn(s, policy, [Fetch(r), Publish(r, deliveries(id)), Commit(r)], PassSteps(r, deliveries, rest));
      assert ([id] + rest)[1..] == rest;
    }
  }

  lemma EndsThePass(s: Outbox, policy: Policy, r: RelayId)
    requires Alone(s, r)
    requires s.relays[r].left == 0 || NextPending(s.table, s.relays[r].cursor).None?
    ensures IsRun(s, policy, [Fetch(r)])
    ensures After(s, policy, [Fetch(r)]).table == s.table && After(s, policy, [Fetch(r)]).relays == map[]
  {
    NothingLocked(s, r);
    var end := Apply(s, policy, Fetch(r));
    assert end.relays == map[];
    assert IsRun(end, policy, []) && After(end, policy, []) == end;
    OneStep(s, policy, Fetch(r), []);
    assert [Fetch(r)] + [] == [Fetch(r)];
  }

  /** So an idle relay's pass over a table that nobody else works on is the pass of one relay: from
      the nil id, up to the cap. */
  lemma UndisturbedPass(s: Outbox, policy: Policy, r: RelayId, deliveries: Uuid -> Delivery)
    requires Inv(s, policy) && s.relays == map[]
    ensures var walk := WalkFrom(s.table, policy, AnswersTo(deliveries), NIL, policy.Cap());
            var steps := [StartPass(r)] + PassSteps(r, deliveries, walk.visited);
            && IsRun(s, policy, steps)
            && After(s, policy, steps).table == walk.table && After(s, policy, steps).relays == map[]
  {
    hide Inv, WalkFrom;
    var started := Apply(s, policy, StartPass(r));
    assert Enabled(s, StartPass(r)) && started == s.(relays := map[r := Scanning(NIL, policy.Cap())]);
    StepKeepsInv(s, policy, StartPass(r));
    SoloPassIsTheWalk(started, policy, r, deliveries);
    OneStep(s, policy, StartPass(r),
            PassSteps(r, deliveries, WalkFrom(s.table, policy, AnswersTo(deliveries), NIL, policy.Cap()).visited));
  }

  // ----- nothing stands in the way -----

  /** Any idle relay may start a pass, any relay may crash, and any publish may end in any way,
      whatever the others are doing; and two relays may hold two rows at once. */
  lemma AnyoneMayAct(s: Outbox, policy: Policy, r: RelayId, delivery: Delivery)
    ensures r !in s.relays ==> Enabled(s, StartPass(r))
    ensures r in s.relays ==> Enabled(s, Crash(r))
    ensures r in s.relays && s.relays[r].Scanning? ==> Enabled(s, Fetch(r))
    ensures r in s.relays && s.relays[r].Holding? ==> Enabled(s, Publish(r, delivery))
    ensures r in s.relays && s.relays[r].Settling? ==> Enabled(s, Commit(r))
  {}

  /** While relay 0 holds row 1, relay 1 takes row 2. */
  lemma TwoHoldTwo(s: Outbox, policy: Policy, record: PendingOutbox)
    requires Inv(s, policy) && s.table.Keys == {1, 2} && s.table[1].status.Pending? && s.table[2].status.Pending?
    requires s.relays == map[0 := Holding(1, record), 1 := Scanning(NIL, 1)] && record.id == 1
    ensures Enabled(s, Fetch(1))
    ensures var next := Apply(s, policy, Fetch(1));
            && next.relays.Keys == {0, 1} && Held(next.relays[0]) == Some(1) && Held(next.relays[1]) == Some(2)
  {
    hide IntoPending, LogInv, OneHolder, HolderInv, RowInv;
    assert Locked(s) == {1} by {
      assert Held(s.relays[0]) == Some(1);
    }
    assert PendingAbove(s.table, NIL) - Locked(s) == {2};
    ReadableRow(2, s.table[2], policy.maxAttempts);
  }
}
