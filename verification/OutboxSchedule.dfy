/** What the schedule of a single relay guarantees when nobody stages concurrently: which
    rows can be left waiting, and how long the relay redrains without a pause. */
module OutboxSchedule {
  import opened Wrappers
  import opened Subjects
  import opened OutboxRows
  import opened OutboxPass

  ghost function PassWalk(table: Table, policy: Policy, answers: Answers): Walk {
    WalkFrom(table, policy, answers, NIL, policy.Cap())
  }

  ghost function PassCounts(table: Table, policy: Policy, answers: Answers): RelayPass {
    PassOf(table, policy, answers, PassWalk(table, policy, answers).visited)
  }

  ghost function Delay(table: Table, policy: Policy, answers: Answers): Option<nat> {
    ScheduleAfter(PassCounts(table, policy, answers), policy.Cap())
  }

  ghost predicate AllFates(table: Table, policy: Policy, answers: Answers, visited: seq<Uuid>, fates: set<RowFate>) {
    forall i :: 0 <= i < |visited| ==>
      visited[i] in table && Fate(table[visited[i]], policy, answers(visited[i])) in fates
  }

  lemma FatesSnoc(table: Table, policy: Policy, answers: Answers, visited: seq<Uuid>, fates: set<RowFate>)
    requires visited != [] && forall i :: 0 <= i < |visited| ==> visited[i] in table
    ensures var n := |visited| - 1;
            AllFates(table, policy, answers, visited, fates) <==>
            AllFates(table, policy, answers, visited[..n], fates)
            && Fate(table[visited[n]], policy, answers(visited[n])) in fates
  {}

  lemma {:induction false} FatesCounted(table: Table, policy: Policy, answers: Answers, visited: seq<Uuid>)
    requires forall i :: 0 <= i < |visited| ==> visited[i] in table
    ensures var fates := FatesOf(table, policy, answers, visited);
            && (fates[WasRetried] == 0
                <==> AllFates(table, policy, answers, visited, {WasPublished, WasFailed, WasStructural}))
            && (fates[WasPublished] == fates[WasFailed] == fates[WasRetried] == 0
                <==> AllFates(table, policy, answers, visited, {WasStructural}))
  {
    if visited != [] {
      hide Fate;
      var n := |visited| - 1;
      FatesCounted(table, policy, answers, visited[..n]);
      FatesSnoc(table, policy, answers, visited, {WasPublished, WasFailed, WasStructural});
      FatesSnoc(table, policy, answers, visited, {WasStructural});
      hide AllFates;
    }
  }

  /** One row across a pass: untouched unless visited, and then moved as its fate says. */
  lemma RowAcrossPass(table: Table, policy: Policy, answers: Answers, id: Uuid)
    requires TableInv(table, policy.maxAttempts) && id in table
    ensures var walk := PassWalk(table, policy, answers);
            && id in walk.table
            && if id !in walk.visited then walk.table[id] == table[id]
               else
                 var before, next, fate := table[id], walk.table[id], Fate(table[id], policy, answers(id));
                 && id in PendingAbove(table, NIL)
                 && 0 <= before.attempts < AtLeastOne(policy.maxAttempts)
                 && (fate.WasPublished? <==> next.status.Published?)
                 && (fate.WasFailed? <==> next.status.Failed?)
                 && (fate.WasRetried? <==> next.status.Pending? && next.attempts == before.attempts + 1)
                 && (fate.WasStructural? <==> next == before)
                 && (fate.WasStructural? <==> answers(id).NoStream?)
  {
    PassVisitsFirst(table, policy, answers);
    var walk := PassWalk(table, policy, answers);
    if id in walk.visited {
      var i :| 0 <= i < |walk.visited| && walk.visited[i] == id;
      assert walk.visited[i] in PendingAbove(table, NIL);
      assert RowInv(table[id], policy.maxAttempts);
      hide WalkFrom, FirstPending, RowInv, TableInv;
      SettleKeepsRowInv(table[id], policy.maxAttempts, answers(id));
    }
  }

  /** When the relay goes to sleep with no timer: exactly when no visited row is owed a retry
      and the pass was either not full or all structural. */
  lemma NoTimerIff(table: Table, policy: Policy, answers: Answers)
    requires TableInv(table, policy.maxAttempts)
    ensures var visited := PassWalk(table, policy, answers).visited;
            Delay(table, policy, answers).None? <==>
            if |visited| < policy.Cap()
            then AllFates(table, policy, answers, visited, {WasPublished, WasFailed, WasStructural})
            else AllFates(table, policy, answers, visited, {WasStructural})
  {
    var visited := PassWalk(table, policy, answers).visited;
    PassVisitsFirst(table, policy, answers);
    hide Fate, TableInv, PassOf, WalkFrom, FatesOf;
    CountersAreFates(table, policy, answers, visited);
    FatesCounted(table, policy, answers, visited);
    RetriedIffTimer(table, policy, answers, visited);
  }

  lemma RetriedIffTimer(table: Table, policy: Policy, answers: Answers, visited: seq<Uuid>)
    requires forall i :: 0 <= i < |visited| ==> visited[i] in table
    ensures PassOf(table, policy, answers, visited).minRetryAttempts.None?
            <==> AllFates(table, policy, answers, visited, {WasPublished, WasFailed, WasStructural})
  {}

  /** When the schedule does set a timer: at once iff a full pass moved a row out, and otherwise
      after the shortest backoff that a retried row is owed. */
  lemma DelayIsShortestOwed(table: Table, policy: Policy, answers: Answers)
    requires TableInv(table, policy.maxAttempts) && Delay(table, policy, answers).Some?
    ensures PassWalk(table, policy, answers).broken.None?
    ensures var visited, delay := PassWalk(table, policy, answers).visited, Delay(table, policy, answers).value;
            && (forall i :: 0 <= i < |visited| ==> visited[i] in table)
            && (delay == 0 <==>
                  |visited| == policy.Cap() && !AllFates(table, policy, answers, visited, {WasRetried, WasStructural}))
            && (delay != 0 ==>
                  && (exists i :: 0 <= i < |visited| && IsRetried(table, policy, answers, visited[i])
                                  && delay == RetryBackoff(RetryAttempts(table, policy, answers, visited[i])))
                  && forall i :: 0 <= i < |visited| && IsRetried(table, policy, answers, visited[i]) ==>
                       delay <= RetryBackoff(RetryAttempts(table, policy, answers, visited[i])))
  {
    hide Fate, TableInv, PassOf, WalkFrom, FatesOf, RetryBackoff, IsRetried, RetryAttempts;
    var visited := PassWalk(table, policy, answers).visited;
    PassVisitsFirst(table, policy, answers);
    CountersAreFates(table, policy, answers, visited);
    OutCounted(table, policy, answers, visited);
    var least := PassCounts(table, policy, answers).minRetryAttempts;
    if least.Some? {
      RetryBackoffMonotone(least.value, least.value);
      forall i | 0 <= i < |visited| && IsRetried(table, policy, answers, visited[i])
        ensures RetryBackoff(least.value) <= RetryBackoff(RetryAttempts(table, policy, answers, visited[i]))
      {
        RetryBackoffMonotone(least.value, RetryAttempts(table, policy, answers, visited[i]));
      }
    }
  }

  lemma {:induction false} OutCounted(table: Table, policy: Policy, answers: Answers, visited: seq<Uuid>)
    requires forall i :: 0 <= i < |visited| ==> visited[i] in table
    ensures var fates := FatesOf(table, policy, answers, visited);
            fates[WasPublished] == fates[WasFailed] == 0
            <==> AllFates(table, policy, answers, visited, {WasRetried, WasStructural})
  {
    if visited != [] {
      hide Fate;
      OutCounted(table, policy, answers, visited[..|visited| - 1]);
      FatesSnoc(table, policy, answers, visited, {WasRetried, WasStructural});
      hide AllFates;
    }
  }

  /** The schedule strands nothing else: with no timer set, the rows still pending above nil
      are visited rows that failed structurally, or the pass was full of such rows. */
  lemma NothingElseStranded(table: Table, policy: Policy, answers: Answers, id: Uuid)
    requires TableInv(table, policy.maxAttempts) && Delay(table, policy, answers).None?
    requires id in PendingAbove(PassWalk(table, policy, answers).table, NIL)
    ensures var visited := PassWalk(table, policy, answers).visited;
            || (|visited| < policy.Cap() && id in visited && answers(id).NoStream?)
            || (|visited| == policy.Cap() && AllFates(table, policy, answers, visited, {WasStructural}))
  {
    hide WalkFrom, Fate, TableInv, PassOf, FirstPending, SettledExactly;
    var walk := PassWalk(table, policy, answers);
    NoTimerIff(table, policy, answers);
    PassVisitsFirst(table, policy, answers);
    RowAcrossPass(table, policy, answers, id);
    if |walk.visited| < policy.Cap() {
      AllPendingVisited(table, policy, answers, id);
      var i :| 0 <= i < |walk.visited| && walk.visited[i] == id;
      assert Fate(table[walk.visited[i]], policy, answers(id)) in {WasPublished, WasFailed, WasStructural};
    }
  }

  /** A pass that was not full visited every pending row. */
  lemma AllPendingVisited(table: Table, policy: Policy, answers: Answers, id: Uuid)
    requires TableInv(table, policy.maxAttempts)
    requires |PassWalk(table, policy, answers).visited| < policy.Cap()
    requires id in PassWalk(table, policy, answers).table && id > NIL
    requires PassWalk(table, policy, answers).table[id].status.Pending?
    ensures id in PassWalk(table, policy, answers).visited
  {
    PassVisitsFirst(table, policy, answers);
    if id !in PassWalk(table, policy, answers).visited {
      RowAcrossPass(table, policy, answers, id);
    }
  }

  /** A pass that is all structural leaves the table as it is, so a full one repeats until
      the broker has the streams: the rows behind it are never tried. */
  lemma StructuralPassIsStuck(table: Table, policy: Policy, answers: Answers)
    requires TableInv(table, policy.maxAttempts)
    requires AllFates(table, policy, answers, PassWalk(table, policy, answers).visited, {WasStructural})
    ensures PassWalk(table, policy, answers).table == table
  {
    hide WalkFrom, Fate, TableInv;
    var walk := PassWalk(table, policy, answers);
    assert walk.table.Keys == table.Keys by { PassVisitsFirst(table, policy, answers); }
    forall id | id in table
      ensures walk.table[id] == table[id]
    {
      RowAcrossPass(table, policy, answers, id);
      if id in walk.visited {
        var i :| 0 <= i < |walk.visited| && walk.visited[i] == id;
        assert Fate(table[walk.visited[i]], policy, answers(id)) in {WasStructural};
      }
    }
  }

  /** With a cap of one, a row whose stream is missing hides a publishable row behind it. */
  lemma StarvedRow(table: Table, policy: Policy, answers: Answers)
    requires policy.Cap() == 1 && TableInv(table, policy.maxAttempts)
    requires PendingAbove(table, NIL) == {1, 2} && answers(1) == NoStream && answers(2) == Stored
    ensures PassWalk(table, policy, answers).visited == [1]
    ensures PassWalk(table, policy, answers).table == table
    ensures Delay(table, policy, answers) == None
  {
    hide WalkFrom, TableInv, SettledExactly, PassOf, PendingAbove;
    var walk := PassWalk(table, policy, answers);
    PassVisitsFirst(table, policy, answers);
    SubsetSize({1}, {1, 2});
    assert |walk.visited| == 1;
    assert 1 in PendingAbove(table, NIL);
    assert walk.visited[0] in {1, 2};
    assert walk.visited == [1];
    StructuralPassIsStuck(table, policy, answers);
    NoTimerIff(table, policy, answers);
  }

  /** Two staged rows and a cap of one: the first row's stream is missing, the second could be
      published, and the pass leaves both as they are and sets no timer. */
  lemma StarvedRowExample()
    ensures var here := EventCoords("a", "b", "c", 1);
            var payload := Payload(Absent, "");
            var table := Stage(Stage(map[], 1, here, payload), 2, here, payload);
            var policy := Policy(5, 1);
            var answers: Answers := id => if id == 1 then NoStream else Stored;
            && here.Valid() && table.Keys == {1, 2}
            && PassWalk(table, policy, answers).visited == [1]
            && PassWalk(table, policy, answers).table == table
            && Delay(table, policy, answers) == None
  {
    var here, payload := EventCoords("a", "b", "c", 1), Payload(Absent, "");
    var policy := Policy(5, 1);
    assert here.Valid();
    StageKeepsTableInv(map[], policy.maxAttempts, 1, here, payload);
    var first := Stage(map[], 1, here, payload);
    StageKeepsTableInv(first, policy.maxAttempts, 2, here, payload);
    var table := Stage(first, 2, here, payload);
    assert PendingAbove(table, NIL) == {1, 2};
    StarvedRow(table, policy, id => if id == 1 then NoStream else Stored);
  }

  /** A row with the nil id is never visited, whatever the answers. */
  lemma NilRowNeverVisited(table: Table, policy: Policy, answers: Answers)
    requires TableInv(table, policy.maxAttempts) && NIL in table
    ensures NIL !in PassWalk(table, policy, answers).visited
    ensures PassWalk(table, policy, answers).table[NIL] == table[NIL]
  {
    PassVisitsFirst(table, policy, answers);
    var visited := PassWalk(table, policy, answers).visited;
  }

  // ----- consecutive passes -----

  /** The table after one pass for each round of broker answers. */
  ghost function AfterRounds(table: Table, policy: Policy, rounds: seq<Answers>): Table
    decreases |rounds|
  {
    if rounds == [] then table
    else AfterRounds(PassWalk(table, policy, rounds[0]).table, policy, rounds[1..])
  }

  /** Every pass of the rounds asks to drain again at once. */
  ghost predicate AllImmediate(table: Table, policy: Policy, rounds: seq<Answers>)
    decreases |rounds|
  {
    rounds == [] ||
    (Delay(table, policy, rounds[0]) == Some(0)
     && AllImmediate(PassWalk(table, policy, rounds[0]).table, policy, rounds[1..]))
  }

  lemma PendingShrinks(table: Table, policy: Policy, answers: Answers)
    requires TableInv(table, policy.maxAttempts)
    ensures PendingAbove(PassWalk(table, policy, answers).table, NIL) <= PendingAbove(table, NIL)
  {
    hide WalkFrom, Fate, TableInv;
    var walk := PassWalk(table, policy, answers);
    assert walk.table.Keys == table.Keys by { PassVisitsFirst(table, policy, answers); }
    forall id | id in PendingAbove(walk.table, NIL)
      ensures id in PendingAbove(table, NIL)
    {
      RowAcrossPass(table, policy, answers, id);
    }
  }

  /** An immediate redrain moved some row out of the pending ones. */
  lemma ImmediateMakesProgress(table: Table, policy: Policy, answers: Answers)
    requires TableInv(table, policy.maxAttempts) && Delay(table, policy, answers) == Some(0)
    ensures |PendingAbove(PassWalk(table, policy, answers).table, NIL)| < |PendingAbove(table, NIL)|
  {
    var walk, pass := PassWalk(table, policy, answers), PassCounts(table, policy, answers);
    PendingShrinks(table, policy, answers);
    hide WalkFrom, Fate, TableInv, PassOf;
    if pass.minRetryAttempts.Some? {
      RetryBackoffMonotone(pass.minRetryAttempts.value, pass.minRetryAttempts.value);
    }
    assert pass.published > 0 || pass.failed > 0;
    var i := MovedRow(table, policy, answers, walk.visited);
    var id := walk.visited[i];
    RowAcrossPass(table, policy, answers, id);
    assert id !in PendingAbove(walk.table, NIL);
    SubsetSize(PendingAbove(walk.table, NIL), PendingAbove(table, NIL));
  }

  lemma {:induction false} MovedRow(table: Table, policy: Policy, answers: Answers, visited: seq<Uuid>) returns (i: nat)
    requires forall j :: 0 <= j < |visited| ==> visited[j] in table
    requires PassOf(table, policy, answers, visited).published > 0 || PassOf(table, policy, answers, visited).failed > 0
    ensures i < |visited| && Fate(table[visited[i]], policy, answers(visited[i])) in {WasPublished, WasFailed}
  {
    hide Fate, ClassifyRow;
    var n := |visited| - 1;
    if Fate(table[visited[n]], policy, answers(visited[n])) in {WasPublished, WasFailed} {
      i := n;
    } else {
      ClassifyRowMoves(PassOf(table, policy, answers, visited[..n]), table, policy, answers, visited[n]);
      i := MovedRow(table, policy, answers, visited[..n]);
    }
  }

  /** Redraining without a pause is bounded by the rows that were pending at its start. */
  lemma {:induction false} ImmediateRoundsBounded(table: Table, policy: Policy, rounds: seq<Answers>)
    requires TableInv(table, policy.maxAttempts) && AllImmediate(table, policy, rounds)
    ensures |rounds| <= |PendingAbove(table, NIL)|
    decreases |rounds|
  {
    if rounds != [] {
      ImmediateMakesProgress(table, policy, rounds[0]);
      PassVisitsFirst(table, policy, rounds[0]);
      ImmediateRoundsBounded(PassWalk(table, policy, rounds[0]).table, policy, rounds[1..]);
    }
  }
}
