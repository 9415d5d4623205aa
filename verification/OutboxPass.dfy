/** One relay pass over the outbox table: a cursor walks the pending rows in id order, each
    row in its own transaction, and the counters of the pass decide when to drain again.
    The answer of the broker to each publish is a parameter. */
module OutboxPass {
  import opened Arithmetic
  import opened Wrappers
  import opened OutboxRows

  datatype Policy = Policy(maxAttempts: U32, maxMessages: nat) {
    function Cap(): nat {
      if maxMessages < 1 then 1 else maxMessages
    }
  }

  /** A pass takes up to the configured number of rows, and at least one. */
  lemma CapAtLeastOne(policy: Policy)
    ensures policy.Cap() >= 1 && policy.Cap() >= policy.maxMessages
    ensures policy.Cap() == 1 || policy.Cap() == policy.maxMessages
  {}

  type Answers = Uuid -> PublishResult

  datatype RelayPass = RelayPass(
    picked: nat, published: nat, duplicates: nat, rowIdFallbacks: nat,
    failed: nat, retried: nat, structural: nat, minRetryAttempts: Option<U32>)

  const EMPTY_PASS := RelayPass(0, 0, 0, 0, 0, 0, 0, None)

  // ----- fetching -----

  function PendingAbove(table: Table, after: Uuid): set<Uuid> {
    set id | id in table && id > after && table[id].status.Pending?
  }

  lemma {:induction false} FindLeast(ids: set<Uuid>) returns (least: Uuid)
    requires ids != {}
    ensures least in ids && forall id :: id in ids ==> least <= id
  {
    least :| least in ids;
    if ids != {least} {
      var below := FindLeast(ids - {least});
      assert forall id :: id in ids ==> id == least || id in ids - {least};
      if below < least {
        least := below;
      }
    }
  }

  lemma LeastExists(ids: set<Uuid>)
    requires ids != {}
    ensures exists least :: least in ids && forall id :: id in ids ==> least <= id
  {
    var least := FindLeast(ids);
  }

  function Least(ids: set<Uuid>): (least: Uuid)
    requires ids != {}
    ensures least in ids && forall id :: id in ids ==> least <= id
  {
    LeastExists(ids);
    var least :| least in ids && forall id :: id in ids ==> least <= id;
    least
  }

  /** The least pending id above the cursor. */
  function NextPending(table: Table, after: Uuid): Option<Uuid> {
    var ids := PendingAbove(table, after);
    if ids == {} then None else Some(Least(ids))
  }

  // ----- the pass -----

  /** A pass that stopped at `broken`, a row whose subject does not parse, or ran its course. */
  datatype Walk = Walk(table: Table, visited: seq<Uuid>, broken: Option<Uuid>)

  function Settled(table: Table, policy: Policy, answers: Answers, id: Uuid): Table
    requires id in table
  {
    table[id := Settle(table[id], policy.maxAttempts, answers(id))]
  }

  ghost function WalkFrom(table: Table, policy: Policy, answers: Answers, after: Uuid, budget: nat): (walk: Walk)
    ensures walk.table.Keys == table.Keys
    ensures forall i :: 0 <= i < |walk.visited| ==> walk.visited[i] in table
    decreases budget
  {
    if budget == 0 then Walk(table, [], None)
    else
      match NextPending(table, after)
      case None => Walk(table, [], None)
      case Some(id) =>
        match IntoPending(id, table[id])
        case Err(_) => Walk(table, [], Some(id))
        case Ok(_) =>
          var rest := WalkFrom(Settled(table, policy, answers, id), policy, answers, id, budget - 1);
          rest.(visited := [id] + rest.visited)
  }

  /** Counts one row: `classify_pass` after `picked` and the fallback count. */
  function Classify(pass: RelayPass, source: MessageIdSource, result: PublishResult, t: Transition): RelayPass {
    var counted := pass.(
      picked := pass.picked + 1,
      rowIdFallbacks := pass.rowIdFallbacks + if source.RowId? then 1 else 0);
    if result.IsOk() then
      counted.(published := pass.published + 1, duplicates := pass.duplicates + if result.Duplicate? then 1 else 0)
    else if result.NoStream? then counted.(structural := pass.structural + 1)
    else if t.status.Failed? then counted.(failed := pass.failed + 1)
    else
      var least: U32 :=
        if pass.minRetryAttempts.Some? && pass.minRetryAttempts.value <= t.attempts
        then pass.minRetryAttempts.value else t.attempts;
      counted.(retried := pass.retried + 1, minRetryAttempts := Some(least))
  }

  function ClassifyRow(pass: RelayPass, table: Table, policy: Policy, answers: Answers, id: Uuid): RelayPass
    requires id in table
  {
    Classify(pass, MessageIdFor(id, table[id].payload).1, answers(id),
             TransitionFor(AttemptsOf(table[id].attempts), policy.maxAttempts, answers(id)))
  }

  datatype RelayHealth = Healthy | Degraded

  /** When to drain again: at once after a full pass that moved rows out, after the shortest
      owed backoff otherwise, and on the next notification if nothing is owed. */
  function ScheduleAfter(pass: RelayPass, cap: nat): Option<nat> {
    var saturated := pass.picked >= cap;
    var madeProgress := pass.published > 0 || pass.failed > 0;
    if saturated && madeProgress then Some(0)
    else
      match pass.minRetryAttempts
      case None => None
      case Some(attempts) => Some(RetryBackoff(attempts))
  }

  class OutboxRelay {
    var table: Table
    var health: RelayHealth
    const policy: Policy

    constructor (table: Table, policy: Policy)
      ensures this.table == table && this.policy == policy && health == Healthy
    {
      this.table, this.policy, health := table, policy, Healthy;
    }

    /** `drain_and_update_health`; an unreadable row ends the relay and leaves its health. */
    method DrainAndUpdateHealth(answers: Answers) returns (delay: Result<Option<nat>, Uuid>)
      modifies this
      ensures var walk := WalkFrom(old(table), policy, answers, NIL, policy.Cap());
              && table == walk.table
              && match walk.broken
                 case Some(id) => delay == Err(id) && health == old(health)
                 case None =>
                   var pass := PassOf(old(table), policy, answers, walk.visited);
                   && delay == Ok(ScheduleAfter(pass, policy.Cap()))
                   && (health == Degraded <==> pass.structural > 0)
    {
      var pass := RunOnceDetailed(answers);
      if pass.Err? {
        return Err(pass.error);
      }
      health := if pass.value.structural > 0 then Degraded else Healthy;
      return Ok(ScheduleAfter(pass.value, policy.Cap()));
    }

    /** One row in one transaction: fetch, publish, settle, commit, count. */
    method ProcessOne(after: Uuid, answers: Answers, pass: RelayPass)
      returns (r: Result<Option<Uuid>, Uuid>, counted: RelayPass)
      modifies this`table
      ensures match NextPending(old(table), after)
              case None => r == Ok(None) && counted == pass && table == old(table)
              case Some(id) =>
                if IntoPending(id, old(table)[id]).Err? then
                  r == Err(id) && counted == pass && table == old(table)
                else
                  && r == Ok(Some(id))
                  && table == Settled(old(table), policy, answers, id)
                  && counted == ClassifyRow(pass, old(table), policy, answers, id)
    {
      counted := pass;
      var next := NextPending(table, after);
      if next.None? {
        return Ok(None), counted;
      }
      var id := next.value;
      var record := IntoPending(id, table[id]);
      if record.Err? {
        return Err(id), counted;
      }
      var (_, source) := MessageIdFor(record.value.id, record.value.payload);
      var result := answers(id);
      var transition := TransitionFor(record.value.attempts, policy.maxAttempts, result);
      table := table[id := table[id].(status := transition.status, attempts := transition.attempts)];
      counted := Classify(counted, source, result, transition);
      return Ok(Some(id)), counted;
    }

    /** `run_once_detailed`: at most `Cap` rows, the cursor always past the last one. An
        unreadable row ends the pass with its error; the rows before it stay committed. */
    method RunOnceDetailed(answers: Answers) returns (r: Result<RelayPass, Uuid>)
      modifies this`table
      ensures var walk := WalkFrom(old(table), policy, answers, NIL, policy.Cap());
              && table == walk.table
              && match walk.broken
                 case Some(id) => r == Err(id)
                 case None => r == Ok(PassOf(old(table), policy, answers, walk.visited))
    {
      hide Settled, IntoPending, Classify, ClassifyRow, NextPending, Settle, TransitionFor;
      ghost var start := table;
      ghost var visited: seq<Uuid> := [];
      var pass := EMPTY_PASS;
      var cursor := NIL;
      var left := policy.Cap();
      while left > 0
        invariant OnTheWay(start, policy, answers, visited, table, cursor, left)
        invariant pass == PassOf(start, policy, answers, visited)
      {
        WalkOnce(start, policy, answers, visited, table, cursor, left);
        ghost var before := table;
        var picked;
        picked, pass := ProcessOne(cursor, answers, pass);
        match picked {
          case Err(id) => return Err(id);
          case Ok(None) => return Ok(pass);
          case Ok(Some(id)) =>
            PassOfSnoc(start, policy, answers, visited, id);
            SameRowSameCount(PassOf(start, policy, answers, visited), start, before, policy, answers, id);
            visited := visited + [id];
            cursor := id;
        }
        left := left - 1;
      }
      assert visited + [] == visited;
      return Ok(pass);
    }
  }

  /** The state of the loop: `visited` is done, and the rest of the walk starts at `cursor`
      on a table that above the cursor is still the one the pass began with. */
  ghost predicate OnTheWay(
      start: Table, policy: Policy, answers: Answers, visited: seq<Uuid>, table: Table, cursor: Uuid, left: nat) {
    && table.Keys == start.Keys
    && (forall i :: 0 <= i < |visited| ==> visited[i] in start)
    && (forall id :: id in start && id > cursor ==> table[id] == start[id])
    && var rest := WalkFrom(table, policy, answers, cursor, left);
       WalkFrom(start, policy, answers, NIL, policy.Cap()) == rest.(visited := visited + rest.visited)
  }

  /** One turn of the loop, seen from the walk. */
  lemma WalkOnce(
      start: Table, policy: Policy, answers: Answers, visited: seq<Uuid>, table: Table, cursor: Uuid, left: nat)
    requires left > 0 && OnTheWay(start, policy, answers, visited, table, cursor, left)
    ensures var whole := WalkFrom(start, policy, answers, NIL, policy.Cap());
            match NextPending(table, cursor)
            case None => whole == Walk(table, visited, None)
            case Some(id) =>
              && id in start && table[id] == start[id]
              && if IntoPending(id, table[id]).Err? then whole == Walk(table, visited, Some(id))
                 else
                   OnTheWay(start, policy, answers, visited + [id], Settled(table, policy, answers, id), id, left - 1)
  {
    WalkUnfold(table, policy, answers, cursor, left);
    hide WalkFrom, NextPending, IntoPending, Settled;
    match NextPending(table, cursor)
    case None => assert visited + [] == visited;
    case Some(id) =>
      if IntoPending(id, table[id]).Err? {
        assert visited + [] == visited;
      } else {
        SettledFrame(table, policy, answers, id);
        var rest := WalkFrom(Settled(table, policy, answers, id), policy, answers, id, left - 1);
        assert visited + ([id] + rest.visited) == (visited + [id]) + rest.visited;
      }
  }

  lemma WalkUnfold(table: Table, policy: Policy, answers: Answers, after: Uuid, budget: nat)
    requires budget > 0
    ensures var walk := WalkFrom(table, policy, answers, after, budget);
            match NextPending(table, after)
            case None => walk == Walk(table, [], None)
            case Some(id) =>
              && id in table && id > after
              && if IntoPending(id, table[id]).Err? then walk == Walk(table, [], Some(id))
                 else
                   var rest := WalkFrom(Settled(table, policy, answers, id), policy, answers, id, budget - 1);
                   walk == rest.(visited := [id] + rest.visited)
  {}

  lemma SettledFrame(table: Table, policy: Policy, answers: Answers, id: Uuid)
    requires id in table
    ensures var next := Settled(table, policy, answers, id);
            next.Keys == table.Keys && forall other :: other in table && other != id ==> next[other] == table[other]
  {}

  /** The counters after these rows, each counted from its state in `table`. */
  function PassOf(table: Table, policy: Policy, answers: Answers, visited: seq<Uuid>): RelayPass
    requires forall i :: 0 <= i < |visited| ==> visited[i] in table
  {
    if visited == [] then EMPTY_PASS
    else
      var n := |visited| - 1;
      ClassifyRow(PassOf(table, policy, answers, visited[..n]), table, policy, answers, visited[n])
  }

  lemma PassOfSnoc(table: Table, policy: Policy, answers: Answers, visited: seq<Uuid>, id: Uuid)
    requires forall i :: 0 <= i < |visited| ==> visited[i] in table
    requires id in table
    ensures PassOf(table, policy, answers, visited + [id])
            == ClassifyRow(PassOf(table, policy, answers, visited), table, policy, answers, id)
  {}

  lemma SameRowSameCount(pass: RelayPass, a: Table, b: Table, policy: Policy, answers: Answers, id: Uuid)
    requires id in a && id in b && a[id] == b[id]
    ensures ClassifyRow(pass, a, policy, answers, id) == ClassifyRow(pass, b, policy, answers, id)
  {}

  // ----- which rows a pass visits -----

  ghost predicate Increasing(ids: seq<Uuid>) {
    forall i, j :: 0 <= i < j < |ids| ==> ids[i] < ids[j]
  }

  /** The first rows pending above `after`, at most `budget` of them, in id order. */
  ghost predicate FirstPending(table: Table, after: Uuid, budget: nat, visited: seq<Uuid>) {
    && Increasing(visited) && |visited| <= budget
    && (forall i :: 0 <= i < |visited| ==> visited[i] in PendingAbove(table, after))
    && forall id :: id in PendingAbove(table, after) ==>
         id in visited || (|visited| == budget && forall i :: 0 <= i < |visited| ==> visited[i] < id)
  }

  /** Visited rows are settled once from their old state; every other row is untouched. */
  ghost predicate SettledExactly(before: Table, after: Table, policy: Policy, answers: Answers, visited: seq<Uuid>) {
    && after.Keys == before.Keys
    && forall id :: id in before ==>
         after[id] == if id in visited then Settle(before[id], policy.maxAttempts, answers(id)) else before[id]
  }

  lemma WalkStep(table: Table, policy: Policy, answers: Answers, after: Uuid, id: Uuid)
    requires NextPending(table, after) == Some(id)
    ensures PendingAbove(Settled(table, policy, answers, id), id) == PendingAbove(table, id)
    ensures PendingAbove(table, id) == PendingAbove(table, after) - {id}
  {}

  lemma {:induction false} WalkVisitsFirst(table: Table, policy: Policy, answers: Answers, after: Uuid, budget: nat)
    requires WalkFrom(table, policy, answers, after, budget).broken.None?
    ensures var walk := WalkFrom(table, policy, answers, after, budget);
            && FirstPending(table, after, budget, walk.visited)
            && SettledExactly(table, walk.table, policy, answers, walk.visited)
    decreases budget
  {
    if budget > 0 && NextPending(table, after).Some? {
      hide Settle, IntoPending;
      var id := NextPending(table, after).value;
      var settled := Settled(table, policy, answers, id);
      var rest := WalkFrom(settled, policy, answers, id, budget - 1);
      WalkStep(table, policy, answers, after, id);
      WalkVisitsFirst(settled, policy, answers, id, budget - 1);
      FirstPendingCons(table, settled, after, budget, id, rest.visited);
      SettledCons(table, rest.table, policy, answers, id, rest.visited);
    }
  }

  lemma FirstPendingCons(table: Table, settled: Table, after: Uuid, budget: nat, id: Uuid, rest: seq<Uuid>)
    requires budget > 0 && NextPending(table, after) == Some(id)
    requires PendingAbove(settled, id) == PendingAbove(table, after) - {id}
    requires FirstPending(settled, id, budget - 1, rest)
    ensures FirstPending(table, after, budget, [id] + rest)
  {}

  lemma SettledCons(table: Table, final: Table, policy: Policy, answers: Answers, id: Uuid, rest: seq<Uuid>)
    requires id in table && id !in rest
    requires SettledExactly(Settled(table, policy, answers, id), final, policy, answers, rest)
    ensures SettledExactly(table, final, policy, answers, [id] + rest)
  {}

  /** With a table of readable rows a pass always runs its course, and it visits exactly the
      first `min(cap, n)` of the `n` rows pending above nil. */
  lemma PassVisitsFirst(table: Table, policy: Policy, answers: Answers)
    requires TableInv(table, policy.maxAttempts)
    ensures var walk := WalkFrom(table, policy, answers, NIL, policy.Cap());
            && walk.broken.None?
            && FirstPending(table, NIL, policy.Cap(), walk.visited)
            && SettledExactly(table, walk.table, policy, answers, walk.visited)
            && |walk.visited| == Min(policy.Cap(), |PendingAbove(table, NIL)|)
            && TableInv(walk.table, policy.maxAttempts)
  {
    WalkReadable(table, policy, answers, NIL, policy.Cap());
    WalkVisitsFirst(table, policy, answers, NIL, policy.Cap());
    VisitedCount(table, NIL, policy.Cap(), WalkFrom(table, policy, answers, NIL, policy.Cap()).visited);
  }

  lemma {:induction false} WalkReadable(table: Table, policy: Policy, answers: Answers, after: Uuid, budget: nat)
    requires TableInv(table, policy.maxAttempts)
    ensures var walk := WalkFrom(table, policy, answers, after, budget);
            walk.broken.None? && TableInv(walk.table, policy.maxAttempts)
    decreases budget
  {
    hide RowInv, IntoPending, Settle;
    if budget > 0 && NextPending(table, after).Some? {
      var id := NextPending(table, after).value;
      ReadableRow(id, table[id], policy.maxAttempts);
      SettleKeepsRowInv(table[id], policy.maxAttempts, answers(id));
      WalkReadable(Settled(table, policy, answers, id), policy, answers, id, budget - 1);
    }
  }

  function AsSet(ids: seq<Uuid>): set<Uuid> {
    set id | id in ids
  }

  lemma {:induction false} IncreasingSize(ids: seq<Uuid>)
    requires Increasing(ids)
    ensures |AsSet(ids)| == |ids|
  {
    if ids != [] {
      var n := |ids| - 1;
      IncreasingSize(ids[..n]);
      assert ids == ids[..n] + [ids[n]];
      assert AsSet(ids) == AsSet(ids[..n]) + {ids[n]};
      assert ids[n] !in AsSet(ids[..n]);
    }
  }

  lemma {:induction false} SubsetSize(a: set<Uuid>, b: set<Uuid>)
    requires a <= b
    ensures |a| <= |b|
    ensures a != b ==> |a| < |b|
  {
    if a != {} {
      var x :| x in a;
      SubsetSize(a - {x}, b - {x});
    }
  }

  lemma VisitedCount(table: Table, after: Uuid, budget: nat, visited: seq<Uuid>)
    requires FirstPending(table, after, budget, visited)
    ensures |visited| == Min(budget, |PendingAbove(table, after)|)
  {
    IncreasingSize(visited);
    SubsetSize(AsSet(visited), PendingAbove(table, after));
    if |visited| < budget {
      forall id | id in PendingAbove(table, after)
        ensures id in AsSet(visited)
      {
        assert id in visited;
      }
      assert AsSet(visited) == PendingAbove(table, after);
    }
  }

  // ----- what the counters say -----

  datatype RowFate = WasPublished | WasFailed | WasRetried | WasStructural

  /** What became of a row in the pass, read off its old attempts and the broker's answer. */
  ghost function Fate(row: Row, policy: Policy, result: PublishResult): RowFate {
    match result
    case Stored => WasPublished
    case Duplicate => WasPublished
    case NoStream => WasStructural
    case OtherFailure => if Settle(row, policy.maxAttempts, result).status.Failed? then WasFailed else WasRetried
  }

  ghost function FatesOf(table: Table, policy: Policy, answers: Answers, visited: seq<Uuid>): multiset<RowFate>
    requires forall i :: 0 <= i < |visited| ==> visited[i] in table
  {
    if visited == [] then multiset{}
    else
      var n := |visited| - 1;
      FatesOf(table, policy, answers, visited[..n])
      + multiset{Fate(table[visited[n]], policy, answers(visited[n]))}
  }

  /** How many of the rows the broker already had. */
  ghost function Repeats(answers: Answers, visited: seq<Uuid>): nat {
    if visited == [] then 0
    else Repeats(answers, visited[..|visited| - 1]) + One(answers(visited[|visited| - 1]).Duplicate?)
  }

  /** How many of the rows went out under their own id. */
  ghost function Fallbacks(table: Table, visited: seq<Uuid>): nat
    requires forall i :: 0 <= i < |visited| ==> visited[i] in table
  {
    if visited == [] then 0
    else
      var id := visited[|visited| - 1];
      Fallbacks(table, visited[..|visited| - 1]) + One(!table[id].payload.eventId.IsUuid?)
  }

  ghost predicate IsRetried(table: Table, policy: Policy, answers: Answers, id: Uuid)
    requires id in table
  {
    Fate(table[id], policy, answers(id)).WasRetried?
  }

  ghost function RetryAttempts(table: Table, policy: Policy, answers: Answers, id: Uuid): (attempts: U32)
    requires id in table
    ensures attempts == Settle(table[id], policy.maxAttempts, answers(id)).attempts
  {
    TransitionFor(AttemptsOf(table[id].attempts), policy.maxAttempts, answers(id)).attempts
  }

  /** `least` is the smallest attempts value among the retried rows of `visited`. */
  ghost predicate LeastRetry(table: Table, policy: Policy, answers: Answers, visited: seq<Uuid>, least: Option<U32>)
    requires forall i :: 0 <= i < |visited| ==> visited[i] in table
  {
    match least
    case None => forall i :: 0 <= i < |visited| ==> !IsRetried(table, policy, answers, visited[i])
    case Some(value) =>
      && (exists i :: 0 <= i < |visited| && IsRetried(table, policy, answers, visited[i])
                      && RetryAttempts(table, policy, answers, visited[i]) == value)
      && forall i :: 0 <= i < |visited| && IsRetried(table, policy, answers, visited[i]) ==>
           value <= RetryAttempts(table, policy, answers, visited[i])
  }

  /** How counting one more row moves each counter. */
  lemma ClassifyRowMoves(pass: RelayPass, table: Table, policy: Policy, answers: Answers, id: Uuid)
    requires id in table
    ensures var fate := Fate(table[id], policy, answers(id));
            var next := ClassifyRow(pass, table, policy, answers, id);
            && next.picked == pass.picked + 1
            && next.published == pass.published + One(fate.WasPublished?)
            && next.failed == pass.failed + One(fate.WasFailed?)
            && next.retried == pass.retried + One(fate.WasRetried?)
            && next.structural == pass.structural + One(fate.WasStructural?)
            && next.duplicates == pass.duplicates + One(answers(id).Duplicate?)
            && (answers(id).Duplicate? ==> fate.WasPublished?)
            && next.rowIdFallbacks == pass.rowIdFallbacks + One(!table[id].payload.eventId.IsUuid?)
            && next.minRetryAttempts
               == if !fate.WasRetried? then pass.minRetryAttempts
                  else if pass.minRetryAttempts.Some?
                          && pass.minRetryAttempts.value <= RetryAttempts(table, policy, answers, id)
                  then pass.minRetryAttempts
                  else Some(RetryAttempts(table, policy, answers, id))
  {}

  /** Exact accounting: each counter is the number of visited rows with that fate. */
  lemma {:induction false} CountersAreFates(table: Table, policy: Policy, answers: Answers, visited: seq<Uuid>)
    requires forall i :: 0 <= i < |visited| ==> visited[i] in table
    ensures var pass, fates := PassOf(table, policy, answers, visited), FatesOf(table, policy, answers, visited);
            && pass.published == fates[WasPublished] && pass.failed == fates[WasFailed]
            && pass.retried == fates[WasRetried] && pass.structural == fates[WasStructural]
            && pass.picked == |visited| == pass.published + pass.failed + pass.retried + pass.structural
            && pass.duplicates == Repeats(answers, visited) <= pass.published
            && pass.rowIdFallbacks == Fallbacks(table, visited)
    ensures LeastRetry(table, policy, answers, visited, PassOf(table, policy, answers, visited).minRetryAttempts)
  {
    LeastIsLeast(table, policy, answers, visited);
    if visited != [] {
      hide ClassifyRow, Fate, RetryAttempts, LeastRetry;
      var before, id := visited[..|visited| - 1], visited[|visited| - 1];
      CountersAreFates(table, policy, answers, before);
      ClassifyRowMoves(PassOf(table, policy, answers, before), table, policy, answers, id);
    }
  }

  lemma {:induction false} LeastIsLeast(table: Table, policy: Policy, answers: Answers, visited: seq<Uuid>)
    requires forall i :: 0 <= i < |visited| ==> visited[i] in table
    ensures LeastRetry(table, policy, answers, visited, PassOf(table, policy, answers, visited).minRetryAttempts)
  {
    if visited != [] {
      hide ClassifyRow, Fate, RetryAttempts, LeastRetry;
      var before, id := visited[..|visited| - 1], visited[|visited| - 1];
      LeastIsLeast(table, policy, answers, before);
      ClassifyRowMoves(PassOf(table, policy, answers, before), table, policy, answers, id);
      LeastRetrySnoc(table, policy, answers, before, id, PassOf(table, policy, answers, before).minRetryAttempts,
                     PassOf(table, policy, answers, visited).minRetryAttempts);
      assert visited == before + [id];
    }
  }

  lemma LeastRetrySnoc(
      table: Table, policy: Policy, answers: Answers, before: seq<Uuid>, id: Uuid, was: Option<U32>, least: Option<U32>)
    requires id in table && forall i :: 0 <= i < |before| ==> before[i] in table
    requires LeastRetry(table, policy, answers, before, was)
    requires var attempts := RetryAttempts(table, policy, answers, id);
             if !IsRetried(table, policy, answers, id) || (was.Some? && was.value <= attempts) then least == was
             else least.Some? && least.value == attempts
    ensures LeastRetry(table, policy, answers, before + [id], least)
  {
    hide Fate, RetryAttempts;
    var visited := before + [id];
    assert visited[|before|] == id;
    assert forall i :: 0 <= i < |before| ==> visited[i] == before[i];
    if was.Some? {
      var i :| 0 <= i < |before| && IsRetried(table, policy, answers, before[i])
        && RetryAttempts(table, policy, answers, before[i]) == was.value;
      assert IsRetried(table, policy, answers, visited[i]);
      assert RetryAttempts(table, policy, answers, visited[i]) == was.value;
    }
    if IsRetried(table, policy, answers, id) {
      assert IsRetried(table, policy, answers, visited[|before|]);
    }
  }
}
