/** The loop itself: a source that answers calls, the recovery with its budget and backoff, and
    `Run`, whose every effect is read off the history of its calls. */
module ConsumeRun {
  import opened Wrappers
  import opened Backoffs
  import opened ConsumeLoop

  /** A broker that will answer the next calls as scripted and then leaves them pending. */
  class Source {
    const answers: seq<Answer>
    const rebinds: seq<Option<FabricError>>
    var asked: nat
    var rebound: nat
    ghost var log: seq<Event>

    ghost predicate Valid()
      reads this
    {
      && asked <= |answers| && AnswersIn(log) == answers[..asked]
      && rebound <= |rebinds| && RebindsIn(log) == rebinds[..rebound]
    }

    constructor (answers: seq<Answer>, rebinds: seq<Option<FabricError>>)
      ensures Valid() && log == [] && asked == 0 && rebound == 0
      ensures this.answers == answers && this.rebinds == rebinds
    {
      this.answers, this.rebinds, this.asked, this.rebound, this.log := answers, rebinds, 0, 0, [];
    }

    /** `None`: the call is still pending. */
    method Next() returns (answer: Option<Answer>)
      requires Valid()
      modifies this`asked, this`log
      ensures Valid()
      ensures answer.None? ==> log == old(log) && asked == old(asked) == |answers|
      ensures answer.Some? ==>
                && asked == old(asked) + 1 && answer.value == answers[old(asked)]
                && log == old(log) + [Event.Next(answer.value)]
    {
      if asked == |answers| {
        return None;
      }
      answer := Some(answers[asked]);
      asked, log := asked + 1, log + [Event.Next(answers[asked])];
    }

    method Rebind(ghost delay: Duration) returns (done: bool, failure: Option<FabricError>)
      requires Valid()
      modifies this`rebound, this`log
      ensures Valid()
      ensures !done ==> log == old(log) && rebound == old(rebound) == |rebinds|
      ensures done ==>
                && rebound == old(rebound) + 1 && failure == rebinds[old(rebound)]
                && log == old(log) + [Event.Rebind(delay, failure)]
    {
      if rebound == |rebinds| {
        return false, None;
      }
      done, failure := true, rebinds[rebound];
      rebound, log := rebound + 1, log + [Event.Rebind(delay, failure)];
    }
  }

  datatype Recovered = Rebound | GaveUp(error: FabricError) | Pending

  class Recovery {
    const backoff: Backoff
    var otherFailures: nat

    constructor (backoff: Backoff)
      ensures this.backoff == backoff && otherFailures == 0
    {
      this.backoff, this.otherFailures := backoff, 0;
    }

    /** Count and schedule are where the history says. */
    ghost predicate Tracks(log: seq<Event>)
      reads this, backoff
    {
      && backoff.Valid()
      && otherFailures == OtherSince(log)
      && backoff.taken == RebindsSince(log)
    }

    method NoteDelivery()
      modifies this, backoff
      ensures otherFailures == 0 && backoff.Valid() && backoff.taken == 0
    {
      backoff.Reset();
      otherFailures := 0;
    }

    method Recover(source: Source, trigger: FabricError) returns (result: Recovered)
      requires source.Valid() && source.log != []
      requires Tracks(Front(source.log)) && !IsDecoded(Last(source.log)) && !Last(source.log).Rebind?
      requires IsHistory(source.log, backoff.initial, backoff.cap)
      requires ErrorOf(Last(source.log)) == Some(trigger) && ShouldRecover(trigger)
      modifies this, backoff, source`rebound, source`log
      ensures source.Valid() && old(source.log) <= source.log
      ensures IsHistory(source.log, backoff.initial, backoff.cap)
      ensures forall i :: |old(source.log)| <= i < |source.log| ==> source.log[i].Rebind?
      ensures match result
              case Rebound => VerdictOf(source.log).NextDue? && Tracks(source.log)
              case GaveUp(error) => VerdictOf(source.log) == Over(Some(error))
              case Pending => VerdictOf(source.log).RebindDue? && source.rebound == |source.rebinds|
    {
      var current := trigger;
      while true
        invariant source.Valid() && old(source.log) <= source.log && source.log != []
        invariant IsHistory(source.log, backoff.initial, backoff.cap)
        invariant forall i :: |old(source.log)| <= i < |source.log| ==> source.log[i].Rebind?
        invariant ErrorOf(Last(source.log)) == Some(current) && ShouldRecover(current)
        invariant !IsDecoded(Last(source.log))
        invariant backoff.Valid() && backoff.taken == RebindsSince(source.log)
        invariant otherFailures == OtherSince(Front(source.log))
        decreases |source.rebinds| - source.rebound
      {
        if CountsAgainstBudget(current) {
          otherFailures := otherFailures + 1;
          if otherFailures > OTHER_FAILURE_BUDGET {
            return GaveUp(current);
          }
        }
        assert VerdictOf(source.log).RebindDue? && otherFailures == OtherSince(source.log);
        ghost var before := source.log;
        var delay := backoff.NextDelay();
        var done, failure := source.Rebind(delay);
        if !done {
          return Pending;
        }
        assert Front(source.log) == before;
        if failure.None? {
          return Rebound;
        }
        if !ShouldRecover(failure.value) {
          return GaveUp(failure.value);
        }
        current := failure.value;
      }
    }
  }

  datatype RunEnd = Closed | Died(error: FabricError) | Waiting

  /** What the loop's environment has seen of it. */
  class Outside {
    var handled: seq<Delivery>
    var acks: seq<(Frame, AckKind)>
    var poison: seq<string>

    constructor ()
      ensures handled == [] && acks == [] && poison == []
    {
      handled, acks, poison := [], [], [];
    }

    ghost predicate Matches(log: seq<Event>, outcomes: nat -> MessageOutcome)
      reads this
    {
      handled == Handled(log) && acks == Acks(log, outcomes) && poison == Poison(log)
    }
  }

  /** Runs until the source closes, an error ends it, or a call stays pending. */
  method Run(source: Source, outcomes: nat -> MessageOutcome, backoff: Backoff, outside: Outside)
    returns (end: RunEnd)
    requires source.Valid() && source.log == []
    requires backoff.Valid() && backoff.taken == 0
    requires outside.handled == [] && outside.acks == [] && outside.poison == []
    modifies source, backoff, outside
    ensures source.Valid()
    ensures IsHistory(source.log, backoff.initial, backoff.cap)
    ensures outside.Matches(source.log, outcomes)
    ensures match end
            case Closed => VerdictOf(source.log) == Over(None)
            case Died(error) => VerdictOf(source.log) == Over(Some(error))
            case Waiting =>
              || (VerdictOf(source.log).NextDue? && source.asked == |source.answers|)
              || (VerdictOf(source.log).RebindDue? && source.rebound == |source.rebinds|)
  {
    hide IsHistory, VerdictOf, Since, Handled, Acks, Poison, AnswersIn, RebindsIn, Nth;
    var recovery := new Recovery(backoff);
    OfNothing(outcomes, backoff.initial, backoff.cap);
    while true
      invariant source.Valid()
      invariant IsHistory(source.log, backoff.initial, backoff.cap) && VerdictOf(source.log).NextDue?
      invariant recovery.Tracks(source.log)
      invariant outside.Matches(source.log, outcomes)
      invariant fresh(recovery) && recovery.backoff == backoff
      decreases |source.answers| - source.asked
    {
      ghost var before := source.log;
      var answer := source.Next();
      if answer.None? {
        return Waiting;
      }
      OneMore(before, answer.value, outcomes, backoff.initial, backoff.cap);
      match answer.value {
        case Ended =>
          return Closed;
        case Failure(error) =>
          if !ShouldRecover(error) {
            return Died(error);
          }
          ghost var failed := source.log;
          assert Front(failed) == before;
          var recovered := recovery.Recover(source, error);
          RebindsChangeNothing(failed, source.log, outcomes);
          match recovered {
            case Rebound =>
            case GaveUp(cause) => return Died(cause);
            case Pending => return Waiting;
          }
        case Delivered(frame) =>
          match frame.decoded {
            case Some(envelope) =>
              recovery.NoteDelivery();
              var outcome := outcomes(|outside.handled|);
              outside.handled := outside.handled + [Delivery(frame.subject, envelope)];
              outside.acks := outside.acks + [(frame, AckKindOf(outcome))];
            case None =>
              outside.acks := outside.acks + [(frame, SendTerm)];
              outside.poison := outside.poison + [frame.subject];
          }
      }
    }
  }

  lemma OfNothing(outcomes: nat -> MessageOutcome, initial: Duration, cap: Duration)
    ensures IsHistory([], initial, cap) && VerdictOf([]).NextDue?
    ensures OtherSince([]) == 0 && RebindsSince([]) == 0
    ensures Handled([]) == [] && Acks([], outcomes) == [] && Poison([]) == []
  {}

  /** What one more answered call to `next` adds to a history. */
  lemma OneMore(
      log: seq<Event>, answer: Answer, outcomes: nat -> MessageOutcome, initial: Duration, cap: Duration)
    requires IsHistory(log, initial, cap) && VerdictOf(log).NextDue?
    ensures var more, decoded := log + [Event.Next(answer)], answer.Delivered? && answer.frame.decoded.Some?;
            && IsHistory(more, initial, cap)
            && (answer.Ended? ==> VerdictOf(more) == Over(None))
            && (answer.Delivered? ==> VerdictOf(more).NextDue?)
            && (answer.Failure? && !ShouldRecover(answer.error) ==> VerdictOf(more) == Over(Some(answer.error)))
            && (decoded ==> OtherSince(more) == RebindsSince(more) == 0)
            && (answer.Delivered? && !decoded ==>
                  OtherSince(more) == OtherSince(log) && RebindsSince(more) == RebindsSince(log))
            && Handled(more) ==
               Handled(log) + (if decoded then [Delivery(answer.frame.subject, answer.frame.decoded.value)] else [])
            && Acks(more, outcomes) ==
               Acks(log, outcomes) +
               (if !answer.Delivered? then []
                else [(answer.frame, if decoded then AckKindOf(outcomes(|Handled(log)|)) else SendTerm)])
            && Poison(more) ==
               Poison(log) + (if answer.Delivered? && !decoded then [answer.frame.subject] else [])
  {
    assert Front(log + [Event.Next(answer)]) == log;
  }

  lemma {:induction false} RebindsChangeNothing(before: seq<Event>, after: seq<Event>, outcomes: nat -> MessageOutcome)
    requires before <= after && forall i :: |before| <= i < |after| ==> after[i].Rebind?
    ensures Handled(after) == Handled(before) && Acks(after, outcomes) == Acks(before, outcomes)
    ensures Poison(after) == Poison(before)
    decreases |after|
  {
    if |before| < |after| {
      RebindsChangeNothing(before, Front(after), outcomes);
    } else {
      assert after == before;
    }
  }
}
