/** Which rows a relay gets rid of over many passes, when the streams of some rows are missing:
    a row is served exactly when fewer such rows than the cap stand before it. */
module OutboxDraining {
  import opened Arithmetic
  import opened OutboxRows
  import opened OutboxPass
  import opened OutboxSchedule

  // ----- which pending rows a pass reaches -----

  function Lower(ids: set<Uuid>, id: Uuid): set<Uuid> {
    set j | j in ids && j < id
  }

  ghost function Below(table: Table, id: Uuid): set<Uuid> {
    Lower(PendingAbove(table, NIL), id)
  }

  lemma {:induction false} IncreasingBelow(ids: seq<Uuid>, i: nat)
    requires Increasing(ids) && i < |ids|
    ensures |Lower(AsSet(ids), ids[i])| == i
  {
    IncreasingSize(ids[..i]);
    assert Lower(AsSet(ids), ids[i]) == AsSet(ids[..i]) by {
      forall j
        ensures j in ids && j < ids[i] <==> j in ids[..i]
      {
        if j in ids && j < ids[i] {
          var k :| 0 <= k < |ids| && ids[k] == j;
          assert k < i;
          assert ids[..i][k] == j;
        }
        if j in ids[..i] {
          var k :| 0 <= k < i && ids[..i][k] == j;
          assert ids[k] == j;
        }
      }
    }
  }

  lemma FirstOnesIff(pending: set<Uuid>, cap: nat, visited: seq<Uuid>, id: Uuid)
    requires Increasing(visited) && |visited| <= cap && id in pending
    requires forall j :: j in visited ==> j in pending
    requires forall j :: j in pending ==>
               j in visited || (|visited| == cap && forall i :: 0 <= i < |visited| ==> visited[i] < j)
    ensures id in visited <==> |Lower(pending, id)| < cap
  {
    if id in visited {
      var i :| 0 <= i < |visited| && visited[i] == id;
      IncreasingBelow(visited, i);
      forall j | j in Lower(pending, id)
        ensures j in visited
      {
        assert j < visited[i];
      }
      assert Lower(pending, id) == Lower(AsSet(visited), id);
    } else {
      IncreasingSize(visited);
      SubsetSize(AsSet(visited), Lower(pending, id));
    }
  }

  /** A pass reaches a pending row exactly when fewer than the cap are pending below it. */
  lemma VisitedIff(table: Table, policy: Policy, answers: Answers, id: Uuid)
    requires TableInv(table, policy.maxAttempts) && id in PendingAbove(table, NIL)
    ensures id in PassWalk(table, policy, answers).visited <==> |Below(table, id)| < policy.Cap()
  {
    hide WalkFrom, TableInv, SettledExactly, PendingAbove, Increasing;
    PassVisitsFirst(table, policy, answers);
    FirstOnesIff(PendingAbove(table, NIL), policy.Cap(), PassWalk(table, policy, answers).visited, id);
  }

  // ----- what the rows outside the stuck ones still cost -----

  /** The publish attempts a row still has before it must leave the pending ones. */
  ghost function Weight(table: Table, policy: Policy, id: Uuid): int {
    if id in table && table[id].status.Pending? then AtLeastOne(policy.maxAttempts) - table[id].attempts else 0
  }

  ghost function Debt(table: Table, policy: Policy, ids: set<Uuid>): int {
    if ids == {} then 0
    else
      var id := Least(ids);
      Weight(table, policy, id) + Debt(table, policy, ids - {id})
  }

  lemma WeightFalls(table: Table, policy: Policy, answers: Answers, id: Uuid)
    requires TableInv(table, policy.maxAttempts) && !answers(id).NoStream? && id in table
    ensures var walk := PassWalk(table, policy, answers);
            && 0 <= Weight(walk.table, policy, id)
            && Weight(walk.table, policy, id) + One(id in walk.visited) <= Weight(table, policy, id)
  {
    hide WalkFrom, Fate;
    assert RowInv(table[id], policy.maxAttempts);
    RowAcrossPass(table, policy, answers, id);
    FateKinds(table[id], policy, answers(id));
  }

  lemma FateKinds(row: Row, policy: Policy, result: PublishResult)
    ensures Fate(row, policy, result) in {WasPublished, WasFailed, WasRetried, WasStructural}
  {}

  /** Rows whose streams exist owe a pass at least one attempt less for each of them it visits. */
  lemma {:induction false} DebtFalls(table: Table, policy: Policy, answers: Answers, ids: set<Uuid>)
    requires TableInv(table, policy.maxAttempts)
    requires forall id :: id in ids ==> id in table && !answers(id).NoStream?
    ensures var walk := PassWalk(table, policy, answers);
            0 <= Debt(walk.table, policy, ids)
            && Debt(walk.table, policy, ids) + |ids * AsSet(walk.visited)| <= Debt(table, policy, ids)
    decreases ids
  {
    hide TableInv, Weight, WalkFrom;
    var walk := PassWalk(table, policy, answers);
    var marked := AsSet(walk.visited);
    if ids == {} {
      assert ids * marked == {};
    } else {
      var id := Least(ids);
      DebtFalls(table, policy, answers, ids - {id});
      WeightFalls(table, policy, answers, id);
      assert id in marked <==> id in walk.visited;
      if id in marked {
        assert ids * marked == (ids - {id}) * marked + {id};
      } else {
        assert ids * marked == (ids - {id}) * marked;
      }
    }
  }

  /** If one of them is pending and near enough to the front, the debt strictly falls. */
  lemma DebtStrictlyFalls(table: Table, policy: Policy, answers: Answers, ids: set<Uuid>, front: Uuid)
    requires TableInv(table, policy.maxAttempts)
    requires forall id :: id in ids ==> id in table && !answers(id).NoStream?
    requires front in ids && front in PendingAbove(table, NIL) && |Below(table, front)| < policy.Cap()
    ensures 0 <= Debt(PassWalk(table, policy, answers).table, policy, ids) < Debt(table, policy, ids)
  {
    hide TableInv, Debt, WalkFrom;
    DebtFalls(table, policy, answers, ids);
    VisitedIff(table, policy, answers, front);
    assert front in ids * AsSet(PassWalk(table, policy, answers).visited);
  }

  // ----- draining around the stuck rows -----

  /** Only rows in `stuck` have a missing stream. */
  ghost predicate OnlyStuck(answers: Answers, stuck: set<Uuid>) {
    forall id :: answers(id).NoStream? ==> id in stuck
  }

  ghost predicate AlwaysStuck(answers: Answers, stuck: set<Uuid>) {
    forall id :: id in stuck ==> answers(id).NoStream?
  }

  ghost function Open(table: Table, stuck: set<Uuid>): set<Uuid> {
    set id | id in table && id > NIL && id !in stuck
  }

  ghost function OpenDebt(table: Table, policy: Policy, stuck: set<Uuid>): int {
    Debt(table, policy, Open(table, stuck))
  }

  /** A pass lowers the debt of the rows outside `stuck` by at least the number of them that it
      visits; with fewer stuck rows than the cap it visits one whenever one is pending. */
  lemma PassPaysDebt(table: Table, policy: Policy, answers: Answers, stuck: set<Uuid>)
    requires TableInv(table, policy.maxAttempts) && OnlyStuck(answers, stuck)
    ensures var walk := PassWalk(table, policy, answers);
            && 0 <= OpenDebt(walk.table, policy, stuck)
            && OpenDebt(walk.table, policy, stuck) + |AsSet(walk.visited) - stuck| <= OpenDebt(table, policy, stuck)
            && (|stuck * PendingAbove(table, NIL)| < policy.Cap() && PendingAbove(table, NIL) - stuck != {} ==>
                  OpenDebt(walk.table, policy, stuck) < OpenDebt(table, policy, stuck))
  {
    hide WalkFrom, TableInv, Debt, SettledExactly, Increasing;
    var walk := PassWalk(table, policy, answers);
    var ids := Open(table, stuck);
    PassVisitsFirst(table, policy, answers);
    assert Open(walk.table, stuck) == ids;
    DebtFalls(table, policy, answers, ids);
    assert ids * AsSet(walk.visited) == AsSet(walk.visited) - stuck;
    if |stuck * PendingAbove(table, NIL)| < policy.Cap() && PendingAbove(table, NIL) - stuck != {} {
      var front := FrontOpen(table, stuck);
      DebtStrictlyFalls(table, policy, answers, ids, front);
    }
  }

  lemma FrontOpen(table: Table, stuck: set<Uuid>) returns (front: Uuid)
    requires PendingAbove(table, NIL) - stuck != {}
    ensures front in PendingAbove(table, NIL) - stuck
    ensures |Below(table, front)| <= |stuck * PendingAbove(table, NIL)|
  {
    front := Least(PendingAbove(table, NIL) - stuck);
    forall j | j in Below(table, front)
      ensures j in stuck * PendingAbove(table, NIL)
    {
      assert j !in PendingAbove(table, NIL) - stuck;
    }
    SubsetSize(Below(table, front), stuck * PendingAbove(table, NIL));
  }

  lemma PendingStaysWithin(table: Table, policy: Policy, answers: Answers, stuck: set<Uuid>)
    requires TableInv(table, policy.maxAttempts)
    ensures var next := PassWalk(table, policy, answers).table;
            && TableInv(next, policy.maxAttempts)
            && |stuck * PendingAbove(next, NIL)| <= |stuck * PendingAbove(table, NIL)|
            && PendingAbove(next, NIL) <= PendingAbove(table, NIL)
  {
    PassVisitsFirst(table, policy, answers);
    hide WalkFrom, TableInv, FirstPending, SettledExactly;
    PendingShrinks(table, policy, answers);
    SubsetSize(stuck * PendingAbove(PassWalk(table, policy, answers).table, NIL), stuck * PendingAbove(table, NIL));
  }

  /** The outbox drains around its stuck rows: if missing streams are confined to fewer pending
      rows than the cap, then after as many passes as the other rows owe attempts, whatever else
      the broker answers, only stuck rows are pending above nil. */
  lemma {:induction false} OutboxDrains(table: Table, policy: Policy, rounds: seq<Answers>, stuck: set<Uuid>)
    requires TableInv(table, policy.maxAttempts)
    requires forall i :: 0 <= i < |rounds| ==> OnlyStuck(rounds[i], stuck)
    requires |stuck * PendingAbove(table, NIL)| < policy.Cap()
    requires |rounds| >= OpenDebt(table, policy, stuck)
    ensures PendingAbove(AfterRounds(table, policy, rounds), NIL) <= stuck
    decreases |rounds|
  {
    hide WalkFrom, TableInv, OnlyStuck, OpenDebt, PendingAbove;
    if rounds == [] {
      if !(PendingAbove(table, NIL) <= stuck) {
        assert PendingAbove(table, NIL) - stuck != {};
        var idle: Answers := _ => Stored;
        assert OnlyStuck(idle, stuck) by { AnyoneMayBeIdle(stuck); }
        PassPaysDebt(table, policy, idle, stuck);
        assert false;
      }
    } else {
      PassPaysDebt(table, policy, rounds[0], stuck);
      PendingStaysWithin(table, policy, rounds[0], stuck);
      var next := PassWalk(table, policy, rounds[0]).table;
      if PendingAbove(table, NIL) <= stuck {
        PendingOnlyShrinks(next, policy, rounds[1..]);
      } else {
        assert PendingAbove(table, NIL) - stuck != {};
        OutboxDrains(next, policy, rounds[1..], stuck);
      }
    }
  }

  lemma AnyoneMayBeIdle(stuck: set<Uuid>)
    ensures OnlyStuck(_ => Stored, stuck)
  {}

  lemma {:induction false} PendingOnlyShrinks(table: Table, policy: Policy, rounds: seq<Answers>)
    requires TableInv(table, policy.maxAttempts)
    ensures PendingAbove(AfterRounds(table, policy, rounds), NIL) <= PendingAbove(table, NIL)
    decreases |rounds|
  {
    hide WalkFrom, TableInv, PendingAbove;
    if rounds != [] {
      PendingStaysWithin(table, policy, rounds[0], {});
      PendingOnlyShrinks(PassWalk(table, policy, rounds[0]).table, policy, rounds[1..]);
    }
  }

  // ----- one row, exactly -----

  /** The stuck rows that stand before a row. */
  ghost function StuckBefore(table: Table, stuck: set<Uuid>, target: Uuid): set<Uuid> {
    stuck * Below(table, target)
  }

  ghost function UpTo(table: Table, stuck: set<Uuid>, target: Uuid): set<Uuid> {
    set id | id in table && NIL < id <= target && id !in stuck
  }

  /** With fewer stuck rows than the cap before it, a pending row gets nearer to its turn with
      every pass. */
  lemma TargetComesNearer(table: Table, policy: Policy, answers: Answers, stuck: set<Uuid>, target: Uuid)
    requires TableInv(table, policy.maxAttempts) && OnlyStuck(answers, stuck)
    requires target in PendingAbove(table, NIL) - stuck && |StuckBefore(table, stuck, target)| < policy.Cap()
    ensures var ids := UpTo(table, stuck, target);
            0 <= Debt(PassWalk(table, policy, answers).table, policy, ids) < Debt(table, policy, ids)
  {
    hide WalkFrom, TableInv, Debt;
    var ids := UpTo(table, stuck, target);
    assert target in ids * PendingAbove(table, NIL);
    var front := Least(ids * PendingAbove(table, NIL));
    forall j | j in Below(table, front)
      ensures j in StuckBefore(table, stuck, target)
    {
      assert j !in ids * PendingAbove(table, NIL);
    }
    SubsetSize(Below(table, front), StuckBefore(table, stuck, target));
    DebtStrictlyFalls(table, policy, answers, ids, front);
  }

  lemma {:induction false} TargetServed(
      table: Table, policy: Policy, rounds: seq<Answers>, stuck: set<Uuid>, target: Uuid)
    requires TableInv(table, policy.maxAttempts)
    requires forall i :: 0 <= i < |rounds| ==> OnlyStuck(rounds[i], stuck)
    requires target !in stuck && |StuckBefore(table, stuck, target)| < policy.Cap()
    requires |rounds| >= Debt(table, policy, UpTo(table, stuck, target))
    ensures target !in PendingAbove(AfterRounds(table, policy, rounds), NIL)
    decreases |rounds|
  {
    hide WalkFrom, TableInv, OnlyStuck, Debt, UpTo, StuckBefore, PendingAbove;
    if target !in PendingAbove(table, NIL) {
      PendingOnlyShrinks(table, policy, rounds);
    } else if rounds == [] {
      AnyoneMayBeIdle(stuck);
      TargetComesNearer(table, policy, _ => Stored, stuck, target);
      assert false;
    } else {
      TargetComesNearer(table, policy, rounds[0], stuck, target);
      StuckBeforeShrinks(table, policy, rounds[0], stuck, target);
      TargetServed(PassWalk(table, policy, rounds[0]).table, policy, rounds[1..], stuck, target);
    }
  }

  lemma StuckBeforeShrinks(table: Table, policy: Policy, answers: Answers, stuck: set<Uuid>, target: Uuid)
    requires TableInv(table, policy.maxAttempts)
    ensures var next := PassWalk(table, policy, answers).table;
            && TableInv(next, policy.maxAttempts)
            && |StuckBefore(next, stuck, target)| <= |StuckBefore(table, stuck, target)|
            && UpTo(next, stuck, target) == UpTo(table, stuck, target)
  {
    PassVisitsFirst(table, policy, answers);
    hide WalkFrom, TableInv, FirstPending;
    PendingShrinks(table, policy, answers);
    var next := PassWalk(table, policy, answers).table;
    SubsetSize(StuckBefore(next, stuck, target), StuckBefore(table, stuck, target));
  }

  /** With as many stuck rows as the cap before it, a row is never touched again. */
  lemma {:induction false} TargetStarved(
      table: Table, policy: Policy, rounds: seq<Answers>, stuck: set<Uuid>, target: Uuid)
    requires TableInv(table, policy.maxAttempts)
    requires forall i :: 0 <= i < |rounds| ==> AlwaysStuck(rounds[i], stuck)
    requires target in PendingAbove(table, NIL) && |StuckBefore(table, stuck, target)| >= policy.Cap()
    ensures target in PendingAbove(AfterRounds(table, policy, rounds), NIL)
    ensures AfterRounds(table, policy, rounds)[target] == table[target]
    decreases |rounds|
  {
    hide WalkFrom, TableInv, AlwaysStuck;
    if rounds != [] {
      StarvedPass(table, policy, rounds[0], stuck, target);
      TargetStarved(PassWalk(table, policy, rounds[0]).table, policy, rounds[1..], stuck, target);
    }
  }

  lemma StarvedPass(table: Table, policy: Policy, answers: Answers, stuck: set<Uuid>, target: Uuid)
    requires TableInv(table, policy.maxAttempts) && AlwaysStuck(answers, stuck)
    requires target in PendingAbove(table, NIL) && |StuckBefore(table, stuck, target)| >= policy.Cap()
    ensures var next := PassWalk(table, policy, answers).table;
            && TableInv(next, policy.maxAttempts)
            && target in PendingAbove(next, NIL) && next[target] == table[target]
            && |StuckBefore(next, stuck, target)| >= policy.Cap()
  {
    PassVisitsFirst(table, policy, answers);
    hide WalkFrom, TableInv, FirstPending, SettledExactly, Fate;
    var next := PassWalk(table, policy, answers).table;
    SubsetSize(StuckBefore(table, stuck, target), Below(table, target));
    VisitedIff(table, policy, answers, target);
    RowAcrossPass(table, policy, answers, target);
    forall id | id in StuckBefore(table, stuck, target)
      ensures id in StuckBefore(next, stuck, target)
    {
      RowAcrossPass(table, policy, answers, id);
    }
    SubsetSize(StuckBefore(table, stuck, target), StuckBefore(next, stuck, target));
  }

  /** While the streams of exactly the rows in `stuck` are missing, a pending row outside them
      leaves the pending ones if and only if fewer stuck rows than the cap stand before it. */
  lemma ServedIff(table: Table, policy: Policy, rounds: seq<Answers>, stuck: set<Uuid>, target: Uuid)
    requires TableInv(table, policy.maxAttempts) && target in PendingAbove(table, NIL) - stuck
    requires forall i :: 0 <= i < |rounds| ==> OnlyStuck(rounds[i], stuck) && AlwaysStuck(rounds[i], stuck)
    requires |rounds| >= Debt(table, policy, UpTo(table, stuck, target))
    ensures target !in PendingAbove(AfterRounds(table, policy, rounds), NIL) <==>
            |StuckBefore(table, stuck, target)| < policy.Cap()
  {
    if |StuckBefore(table, stuck, target)| < policy.Cap() {
      TargetServed(table, policy, rounds, stuck, target);
    } else {
      TargetStarved(table, policy, rounds, stuck, target);
    }
  }
}
