/** The endless reconcile/follow cycle behind every watched projection: the health it publishes
    and how long it waits between attempts. */
module Supervisor {
  import opened Arithmetic
  import opened Wrappers
  import opened Backoffs
  import opened WatchHealths

  /** What the supervisor does, with the health its receivers see meanwhile. */
  datatype Event =
    | Reconcile(health: WatchHealth, ok: bool)
    | Follow(health: WatchHealth, progressed: bool, ok: bool)
    | Sleep(health: WatchHealth, delay: Duration)

  function Last(log: seq<Event>): Event
    requires log != []
  {
    log[|log| - 1]
  }

  function Front(log: seq<Event>): seq<Event>
    requires log != []
  {
    log[..|log| - 1]
  }

  datatype Due = ReconcileDue | FollowDue | SleepDue

  function DueAfter(log: seq<Event>): Due {
    if log == [] || Last(log).Sleep? then ReconcileDue
    else if Last(log).Reconcile? && Last(log).ok then FollowDue
    else SleepDue
  }

  /** Sleeps since the last follow that delivered something. */
  function SleepsSince(log: seq<Event>): nat
    decreases |log|
  {
    if log == [] || (Last(log).Follow? && Last(log).progressed) then 0
    else SleepsSince(Front(log)) + (if Last(log).Sleep? then 1 else 0)
  }

  /** The event is the one that is due, with the health and the delay that are due. */
  predicate Fits(log: seq<Event>, event: Event, initial: Duration, cap: Duration) {
    match DueAfter(log)
    case ReconcileDue => event.Reconcile? && event.health.Degraded?
    case FollowDue => event.Follow? && event.health.Healthy?
    case SleepDue => event == Sleep(Degraded, Nth(initial, cap, SleepsSince(log)))
  }

  predicate IsHistory(log: seq<Event>, initial: Duration, cap: Duration)
    decreases |log|
  {
    log == [] || (IsHistory(Front(log), initial, cap) && Fits(Front(log), Last(log), initial, cap))
  }

  lemma OneMore(log: seq<Event>, event: Event, initial: Duration, cap: Duration)
    requires IsHistory(log, initial, cap) && Fits(log, event, initial, cap)
    ensures IsHistory(log + [event], initial, cap)
    ensures SleepsSince(log + [event]) ==
            if event.Follow? && event.progressed then 0 else SleepsSince(log) + (if event.Sleep? then 1 else 0)
    ensures DueAfter(log + [event]) ==
            if event.Sleep? then ReconcileDue else if event.Reconcile? && event.ok then FollowDue else SleepDue
  {}

  /** A cycle whose next reconciles and follows end as scripted and then stay pending. */
  class Cycle {
    const reconciles: seq<bool>
    const follows: seq<(bool, bool)>
    var reconciled: nat
    var followed: nat
    ghost var log: seq<Event>

    ghost predicate Valid()
      reads this
    {
      && reconciled <= |reconciles| && Reconciles(log) == reconciles[..reconciled]
      && followed <= |follows| && Follows(log) == follows[..followed]
    }

    constructor (reconciles: seq<bool>, follows: seq<(bool, bool)>)
      ensures Valid() && log == [] && this.reconciles == reconciles && this.follows == follows
    {
      this.reconciles, this.follows, this.reconciled, this.followed, this.log := reconciles, follows, 0, 0, [];
    }

    method DoReconcile(health: WatchHealth) returns (ok: Option<bool>)
      requires Valid()
      modifies this`reconciled, this`log
      ensures Valid()
      ensures ok.None? ==> log == old(log) && reconciled == old(reconciled) == |reconciles|
      ensures ok.Some? ==> log == old(log) + [Reconcile(health, ok.value)] && reconciled == old(reconciled) + 1
    {
      if reconciled == |reconciles| {
        return None;
      }
      ok := Some(reconciles[reconciled]);
      reconciled, log := reconciled + 1, log + [Reconcile(health, reconciles[reconciled])];
    }

    method DoFollow(health: WatchHealth) returns (report: Option<(bool, bool)>)
      requires Valid()
      modifies this`followed, this`log
      ensures Valid()
      ensures report.None? ==> log == old(log) && followed == old(followed) == |follows|
      ensures report.Some? ==>
                log == old(log) + [Follow(health, report.value.0, report.value.1)] && followed == old(followed) + 1
    {
      if followed == |follows| {
        return None;
      }
      report := Some(follows[followed]);
      followed, log := followed + 1, log + [Follow(health, follows[followed].0, follows[followed].1)];
    }

    ghost method NoteSleep(health: WatchHealth, delay: Duration)
      requires Valid()
      modifies this`log
      ensures Valid() && log == old(log) + [Sleep(health, delay)]
    {
      log := log + [Sleep(health, delay)];
    }
  }

  function Reconciles(log: seq<Event>): seq<bool>
    decreases |log|
  {
    if log == [] then []
    else if Last(log).Reconcile? then Reconciles(Front(log)) + [Last(log).ok]
    else Reconciles(Front(log))
  }

  function Follows(log: seq<Event>): seq<(bool, bool)>
    decreases |log|
  {
    if log == [] then []
    else if Last(log).Follow? then Follows(Front(log)) + [(Last(log).progressed, Last(log).ok)]
    else Follows(Front(log))
  }

  /** Never ends by itself; it stops here where the cycle leaves a call pending. */
  method Supervise(cycle: Cycle, health: WatchHealthChannel, backoff: Backoff)
    requires cycle.Valid() && cycle.log == [] && health.Valid()
    requires backoff.Valid() && backoff.taken == 0
    modifies cycle, health, backoff
    ensures cycle.Valid() && health.Valid()
    ensures IsHistory(cycle.log, backoff.initial, backoff.cap)
    ensures match DueAfter(cycle.log)
            case ReconcileDue => health.value.Degraded? && cycle.reconciled == |cycle.reconciles|
            case FollowDue => health.value.Healthy? && cycle.followed == |cycle.follows|
            case SleepDue => false
  {
    hide IsHistory, SleepsSince, DueAfter, Reconciles, Follows, Nth;
    ghost var initial, cap := backoff.initial, backoff.cap;
    assert IsHistory([], initial, cap) && SleepsSince([]) == 0 && DueAfter([]) == ReconcileDue by {
      OfNothing(initial, cap);
    }
    health.Set(Degraded);
    while true
      invariant cycle.Valid() && health.Valid() && health.value.Degraded?
      invariant IsHistory(cycle.log, initial, cap) && DueAfter(cycle.log).ReconcileDue?
      invariant backoff.Valid() && backoff.taken == SleepsSince(cycle.log)
      decreases |cycle.reconciles| - cycle.reconciled
    {
      ghost var log := cycle.log;
      var ok := cycle.DoReconcile(health.value);
      if ok.None? {
        return;
      }
      OneMore(log, Reconcile(Degraded, ok.value), initial, cap);
      if ok.value {
        health.Set(Healthy);
        log := cycle.log;
        var report := cycle.DoFollow(health.value);
        if report.None? {
          return;
        }
        OneMore(log, Follow(Healthy, report.value.0, report.value.1), initial, cap);
        if report.value.0 {
          backoff.Reset();
        }
      }
      health.Set(Degraded);
      log := cycle.log;
      var delay := backoff.NextDelay();
      cycle.NoteSleep(health.value, delay);
      OneMore(log, Sleep(Degraded, delay), initial, cap);
    }
  }

  lemma OfNothing(initial: Duration, cap: Duration)
    ensures IsHistory([], initial, cap) && SleepsSince([]) == 0 && DueAfter([]) == ReconcileDue
  {}

  // ----- what holds of every history -----

  lemma {:induction false} PrefixIsHistory(log: seq<Event>, initial: Duration, cap: Duration, n: nat)
    requires IsHistory(log, initial, cap) && n <= |log|
    ensures IsHistory(log[..n], initial, cap)
    decreases |log|
  {
    if n < |log| {
      PrefixIsHistory(Front(log), initial, cap, n);
      assert Front(log)[..n] == log[..n];
    } else {
      assert log[..n] == log;
    }
  }

  /** Receivers see Healthy exactly while the supervisor follows, which it does only right after
      a reconcile that succeeded; and between two reconciles it always sleeps. */
  lemma HealthyExactlyWhileFollowing(log: seq<Event>, initial: Duration, cap: Duration, i: nat)
    requires IsHistory(log, initial, cap) && i < |log|
    ensures log[i].health.Healthy? <==> log[i].Follow?
    ensures log[i].Follow? <==> i > 0 && log[i - 1].Reconcile? && log[i - 1].ok
    ensures log[i].Reconcile? <==> i == 0 || log[i - 1].Sleep?
  {
    PrefixIsHistory(log, initial, cap, i + 1);
    assert Front(log[..i + 1]) == log[..i];
    if i > 0 {
      assert Last(log[..i]) == log[i - 1];
    }
  }

  function Sleeps(log: seq<Event>): nat
    decreases |log|
  {
    if log == [] then 0 else Sleeps(Front(log)) + (if Last(log).Sleep? then 1 else 0)
  }

  /** The count is over the stretch behind the last follow that progressed, or over the whole log if
      none has. */
  lemma {:induction false} SleepsSinceMeans(log: seq<Event>, start: nat)
    requires start <= |log| && (start == 0 || (log[start - 1].Follow? && log[start - 1].progressed))
    requires forall i :: start <= i < |log| ==> !(log[i].Follow? && log[i].progressed)
    ensures SleepsSince(log) == Sleeps(log[start..])
    decreases |log|
  {
    if start < |log| {
      SleepsSinceMeans(Front(log), start);
      assert Front(log[start..]) == Front(log)[start..];
    }
  }

  /** The k-th sleep since the last progressing follow waits min(cap, initial * 2^(k-1)). */
  lemma SleepFormula(log: seq<Event>, initial: Duration, cap: Duration, i: nat)
    requires IsHistory(log, initial, cap) && initial <= cap
    requires i < |log| && log[i].Sleep?
    ensures log[i].delay == Min(initial * Pow2(SleepsSince(log[..i])), cap)
  {
    PrefixIsHistory(log, initial, cap, i + 1);
    assert Front(log[..i + 1]) == log[..i];
    NthFormula(initial, cap, SleepsSince(log[..i]));
  }
}
