/** The durable consume loop as a history of its calls to the source: what each history calls
    for next, and what holds of every history it can have. */
module ConsumeLoop {
  import opened Arithmetic
  import opened Wrappers
  import opened Backoffs

  datatype ConsumeErrorKind =
    NoStream | NoConsumer | ConsumerGone | Other | NoDeliveryInfo | HeartbeatMissed | NoResponders

  datatype FabricError = Consume(kind: ConsumeErrorKind) | Elsewhere(text: string)

  type Envelope = string

  /** `decoded` is what the payload decodes to, if it does. */
  datatype Frame = Frame(subject: string, decoded: Option<Envelope>)

  datatype Answer = Ended | Failure(error: FabricError) | Delivered(frame: Frame)

  /** A call to the source and its answer; a rebind comes after a sleep. */
  datatype Event = Next(answer: Answer) | Rebind(delay: Duration, failure: Option<FabricError>)

  datatype MessageOutcome = Ack | Nak(delay: Option<Duration>) | Term | Unlisted

  datatype AckKind = SendAck | SendNak(delay: Option<Duration>) | SendTerm

  datatype Delivery = Delivery(subject: string, envelope: Envelope)

  const OTHER_FAILURE_BUDGET: nat := 10

  predicate ShouldRecover(error: FabricError) {
    error.Consume? && (error.kind.HeartbeatMissed? || error.kind.NoResponders? || error.kind.Other?)
  }

  predicate CountsAgainstBudget(error: FabricError) {
    error.Consume? && error.kind.Other?
  }

  /** A frame is settled exactly when its handler said so, and otherwise asked for again. */
  function AckKindOf(outcome: MessageOutcome): (kind: AckKind)
    ensures kind.SendAck? <==> outcome.Ack?
    ensures kind.SendTerm? <==> outcome.Term?
    ensures outcome.Nak? ==> kind == SendNak(outcome.delay)
    ensures outcome.Unlisted? ==> kind == SendNak(None)
  {
    match outcome
    case Ack => SendAck
    case Nak(delay) => SendNak(delay)
    case Term => SendTerm
    case Unlisted => SendNak(None)
  }

  // ----- reading a history -----

  function ErrorOf(event: Event): Option<FabricError> {
    match event
    case Next(Failure(error)) => Some(error)
    case Next(_) => None
    case Rebind(_, failure) => failure
  }

  predicate IsOther(event: Event) {
    ErrorOf(event).Some? && CountsAgainstBudget(ErrorOf(event).value)
  }

  predicate IsFrame(event: Event) {
    event.Next? && event.answer.Delivered?
  }

  predicate IsDecoded(event: Event) {
    IsFrame(event) && event.answer.frame.decoded.Some?
  }

  function Last(log: seq<Event>): Event
    requires log != []
  {
    log[|log| - 1]
  }

  function Front(log: seq<Event>): seq<Event>
    requires log != []
  {
    log[..|log| - 1]
  }

  function Count(log: seq<Event>, p: Event -> bool): nat
    decreases |log|
  {
    if log == [] then 0 else Count(Front(log), p) + (if p(Last(log)) then 1 else 0)
  }

  /** How many events with the property came after the last decoded frame. */
  function Since(log: seq<Event>, p: Event -> bool): nat
    decreases |log|
  {
    if log == [] || IsDecoded(Last(log)) then 0
    else Since(Front(log), p) + (if p(Last(log)) then 1 else 0)
  }

  /** That is a count over the stretch behind the last decoded frame, or over the whole log if it
      has none. */
  lemma {:induction false} SinceMeans(log: seq<Event>, p: Event -> bool, start: nat)
    requires start <= |log| && (start == 0 || (log[start - 1].Next? && log[start - 1].answer.Delivered?
                                               && log[start - 1].answer.frame.decoded.Some?))
    requires forall i :: start <= i < |log| ==>
               !(log[i].Next? && log[i].answer.Delivered? && log[i].answer.frame.decoded.Some?)
    ensures Since(log, p) == Count(log[start..], p)
    decreases |log|
  {
    if start < |log| {
      SinceMeans(Front(log), p, start);
      assert Front(log[start..]) == Front(log)[start..];
    }
  }

  function OtherSince(log: seq<Event>): nat {
    Since(log, IsOther)
  }

  function RebindsSince(log: seq<Event>): nat {
    Since(log, (e: Event) => e.Rebind?)
  }

  // ----- what the loop does next -----

  datatype Verdict = NextDue | RebindDue | Over(error: Option<FabricError>)

  function VerdictOf(log: seq<Event>): Verdict {
    if log == [] || (ErrorOf(Last(log)).None? && Last(log) != Next(Ended)) then NextDue
    else if Last(log) == Next(Ended) then Over(None)
    else
      var error := ErrorOf(Last(log)).value;
      if !ShouldRecover(error) then Over(Some(error))
      else if CountsAgainstBudget(error) && OtherSince(log) > OTHER_FAILURE_BUDGET then Over(Some(error))
      else RebindDue
  }

  /** Every call is the one that was due, and every rebind slept for the delay that was due. */
  predicate IsHistory(log: seq<Event>, initial: Duration, cap: Duration)
    decreases |log|
  {
    log == [] ||
    (&& IsHistory(Front(log), initial, cap)
     && (VerdictOf(Front(log)).NextDue? ==> Last(log).Next?)
     && (VerdictOf(Front(log)).RebindDue? ==>
           Last(log).Rebind? && Last(log).delay == Nth(initial, cap, RebindsSince(Front(log))))
     && !VerdictOf(Front(log)).Over?)
  }

  // ----- what the loop owes its frames -----

  /** What the handler has been given. */
  function Handled(log: seq<Event>): seq<Delivery>
    decreases |log|
  {
    if log == [] then []
    else if IsDecoded(Last(log)) then
      Handled(Front(log)) + [Delivery(Last(log).answer.frame.subject, Last(log).answer.frame.decoded.value)]
    else Handled(Front(log))
  }

  /** Each frame with the one acknowledgement sent for it; `outcomes(k)` is the handler's k-th
      answer. */
  function Acks(log: seq<Event>, outcomes: nat -> MessageOutcome): seq<(Frame, AckKind)>
    decreases |log|
  {
    if log == [] then []
    else if IsDecoded(Last(log)) then
      Acks(Front(log), outcomes) + [(Last(log).answer.frame, AckKindOf(outcomes(|Handled(Front(log))|)))]
    else if IsFrame(Last(log)) then Acks(Front(log), outcomes) + [(Last(log).answer.frame, SendTerm)]
    else Acks(Front(log), outcomes)
  }

  /** The subjects of the frames reported as poison. */
  function Poison(log: seq<Event>): seq<string>
    decreases |log|
  {
    if log == [] then []
    else if IsFrame(Last(log)) && !IsDecoded(Last(log)) then Poison(Front(log)) + [Last(log).answer.frame.subject]
    else Poison(Front(log))
  }

  /** What the source was asked for and what it gave, call by call. */
  function AnswersIn(log: seq<Event>): seq<Answer>
    decreases |log|
  {
    if log == [] then []
    else if Last(log).Next? then AnswersIn(Front(log)) + [Last(log).answer]
    else AnswersIn(Front(log))
  }

  function RebindsIn(log: seq<Event>): seq<Option<FabricError>>
    decreases |log|
  {
    if log == [] then []
    else if Last(log).Rebind? then RebindsIn(Front(log)) + [Last(log).failure]
    else RebindsIn(Front(log))
  }

  function DecodableIn(answers: seq<Answer>): seq<Delivery> {
    if answers == [] then []
    else if answers[0].Delivered? && answers[0].frame.decoded.Some? then
      [Delivery(answers[0].frame.subject, answers[0].frame.decoded.value)] + DecodableIn(answers[1..])
    else DecodableIn(answers[1..])
  }

  lemma {:induction false} DecodableSnoc(answers: seq<Answer>, a: Answer)
    ensures DecodableIn(answers + [a]) == DecodableIn(answers) + DecodableIn([a])
  {
    if answers == [] {
      assert answers + [a] == [a];
    } else {
      DecodableSnoc(answers[1..], a);
      assert (answers + [a])[1..] == answers[1..] + [a];
    }
  }

  /** The handler is given the decodable frames of the source's answers, in order, once each,
      wherever errors and rebinds fall between them. */
  lemma {:induction false} HandledAreTheDecodable(log: seq<Event>)
    ensures Handled(log) == DecodableIn(AnswersIn(log))
    decreases |log|
  {
    if log != [] {
      HandledAreTheDecodable(Front(log));
      if Last(log).Next? {
        DecodableSnoc(AnswersIn(Front(log)), Last(log).answer);
        assert DecodableIn([]) == [];
      }
    }
  }

  // ----- one acknowledgement for each frame -----

  /** The delivered frames, in order. */
  function FramesIn(answers: seq<Answer>): seq<Frame> {
    if answers == [] then []
    else if answers[0].Delivered? then [answers[0].frame] + FramesIn(answers[1..])
    else FramesIn(answers[1..])
  }

  lemma {:induction false} FramesSnoc(answers: seq<Answer>, a: Answer)
    ensures FramesIn(answers + [a]) == FramesIn(answers) + (if a.Delivered? then [a.frame] else [])
  {
    if answers == [] {
      assert answers + [a] == [a];
    } else {
      FramesSnoc(answers[1..], a);
      assert (answers + [a])[1..] == answers[1..] + [a];
    }
  }

  /** How many of the frames decode. */
  function Decodable(frames: seq<Frame>): nat
    decreases |frames|
  {
    if frames == [] then 0
    else Decodable(frames[..|frames| - 1]) + (if frames[|frames| - 1].decoded.Some? then 1 else 0)
  }

  function Undecodable(frames: seq<Frame>): seq<string>
    decreases |frames|
  {
    if frames == [] then []
    else
      var front, last := frames[..|frames| - 1], frames[|frames| - 1];
      Undecodable(front) + (if last.decoded.None? then [last.subject] else [])
  }

  /** What the frame at `i` is owed: a termination if it does not decode, and otherwise the
      handler's answer to it, counting decodable frames only. */
  function AckOwed(frames: seq<Frame>, outcomes: nat -> MessageOutcome, i: nat): AckKind
    requires i < |frames|
  {
    if frames[i].decoded.None? then SendTerm else AckKindOf(outcomes(Decodable(frames[..i])))
  }

  /** One acknowledgement for each frame, in order, and the one it is owed. */
  ghost predicate AckedOnce(acks: seq<(Frame, AckKind)>, frames: seq<Frame>, outcomes: nat -> MessageOutcome) {
    && |acks| == |frames|
    && forall i :: 0 <= i < |frames| ==> acks[i] == (frames[i], AckOwed(frames, outcomes, i))
  }

  lemma OneMoreAck(acks: seq<(Frame, AckKind)>, before: seq<Frame>, frame: Frame, outcomes: nat -> MessageOutcome)
    requires AckedOnce(acks, before, outcomes)
    ensures AckedOnce(acks + [(frame, AckOwed(before + [frame], outcomes, |before|))], before + [frame], outcomes)
  {
    hide AckOwed;
    OneMoreFrame(before, frame, outcomes);
  }

  lemma OneMoreFrame(before: seq<Frame>, frame: Frame, outcomes: nat -> MessageOutcome)
    ensures var frames := before + [frame];
            && (forall i :: 0 <= i < |before| ==> AckOwed(frames, outcomes, i) == AckOwed(before, outcomes, i))
            && AckOwed(frames, outcomes, |before|)
               == (if frame.decoded.None? then SendTerm else AckKindOf(outcomes(Decodable(before))))
            && Decodable(frames) == Decodable(before) + (if frame.decoded.Some? then 1 else 0)
            && Undecodable(frames) == Undecodable(before) + (if frame.decoded.None? then [frame.subject] else [])
  {
    hide AckKindOf;
    var frames := before + [frame];
    assert frames[..|before|] == before;
    forall i | 0 <= i < |before|
      ensures AckOwed(frames, outcomes, i) == AckOwed(before, outcomes, i)
    {
      assert frames[..i] == before[..i];
    }
  }

  /** The acknowledgements are, in order and one each, the delivered frames with what each is
      owed; and the poison reports are the subjects of the frames that do not decode. */
  lemma {:induction false} EveryFrameOnce(log: seq<Event>, outcomes: nat -> MessageOutcome)
    ensures AckedOnce(Acks(log, outcomes), FramesIn(AnswersIn(log)), outcomes)
    ensures |Handled(log)| == Decodable(FramesIn(AnswersIn(log)))
    ensures Poison(log) == Undecodable(FramesIn(AnswersIn(log)))
    decreases |log|
  {
    if log != [] {
      hide AckedOnce, FramesIn, AckOwed, Decodable, Undecodable, AckKindOf;
      var frames := FramesIn(AnswersIn(Front(log)));
      EveryFrameOnce(Front(log), outcomes);
      if Last(log).Next? {
        FramesSnoc(AnswersIn(Front(log)), Last(log).answer);
      }
      if IsFrame(Last(log)) {
        OneMoreFrame(frames, Last(log).answer.frame, outcomes);
        OneMoreAck(Acks(Front(log), outcomes), frames, Last(log).answer.frame, outcomes);
      } else {
        assert FramesIn(AnswersIn(log)) == frames;
      }
    } else {
      assert FramesIn(AnswersIn(log)) == [];
    }
  }

  lemma {:induction false} HandledAreDecoded(log: seq<Event>)
    ensures |Handled(log)| == Count(log, IsDecoded)
    decreases |log|
  {
    if log != [] {
      HandledAreDecoded(Front(log));
    }
  }

  // ----- the failure budget -----

  lemma {:induction false} BudgetHolds(log: seq<Event>, initial: Duration, cap: Duration)
    requires IsHistory(log, initial, cap)
    ensures OtherSince(log) <= OTHER_FAILURE_BUDGET + 1
    ensures OtherSince(log) == OTHER_FAILURE_BUDGET + 1 ==> VerdictOf(log).Over?
    decreases |log|
  {
    if log != [] {
      BudgetHolds(Front(log), initial, cap);
    }
  }

  lemma {:induction false} OthersPerDecodedFrame(log: seq<Event>, initial: Duration, cap: Duration)
    requires IsHistory(log, initial, cap)
    ensures Count(log, IsOther) <= OTHER_FAILURE_BUDGET * Count(log, IsDecoded) + OtherSince(log)
    decreases |log|
  {
    if log != [] {
      OthersPerDecodedFrame(Front(log), initial, cap);
      BudgetHolds(Front(log), initial, cap);
    }
  }

  /** An unclassified failure, by its kind. */
  predicate IsUnclassified(event: Event) {
    ErrorOf(event) == Some(Consume(Other))
  }

  lemma {:induction false} UnclassifiedAreCounted(log: seq<Event>)
    ensures Count(log, IsUnclassified) == Count(log, IsOther)
    ensures Since(log, IsUnclassified) == OtherSince(log)
    decreases |log|
  {
    if log != [] {
      UnclassifiedAreCounted(Front(log));
      assert IsUnclassified(Last(log)) <==> IsOther(Last(log));
    }
  }

  /** With d decoded frames a run sees at most 10(d+1)+1 unclassified failures, and at most eleven
      after the last decoded frame, the eleventh of which ends it. */
  lemma OthersAreBounded(log: seq<Event>, initial: Duration, cap: Duration)
    requires IsHistory(log, initial, cap)
    ensures Count(log, IsUnclassified) <= 10 * (|Handled(log)| + 1) + 1
    ensures Since(log, IsUnclassified) <= 11
    ensures Since(log, IsUnclassified) == 11 ==> VerdictOf(log).Over?
  {
    UnclassifiedAreCounted(log);
    OthersPerDecodedFrame(log, initial, cap);
    BudgetHolds(log, initial, cap);
    HandledAreDecoded(log);
  }

  /** What the loop does after each kind of answer. A missed heartbeat and an absent responder are
      always recovered from; an unclassified failure is, unless it is the eleventh since the last
      decoded frame; every other error ends the run with itself. */
  lemma VerdictByKind(log: seq<Event>, initial: Duration, cap: Duration)
    requires IsHistory(log, initial, cap) && log != []
    ensures match ErrorOf(Last(log))
            case None => VerdictOf(log) == if Last(log) == Next(Ended) then Over(None) else NextDue
            case Some(Consume(HeartbeatMissed)) => VerdictOf(log).RebindDue?
            case Some(Consume(NoResponders)) => VerdictOf(log).RebindDue?
            case Some(Consume(Other)) =>
              VerdictOf(log) ==
              if Since(log, IsUnclassified) == 11 then Over(Some(Consume(Other))) else RebindDue
            case Some(error) => VerdictOf(log) == Over(Some(error))
  {
    UnclassifiedAreCounted(log);
    BudgetHolds(log, initial, cap);
  }

  /** The loop gives up on a recoverable error only when it is the eleventh unclassified one
      since the last decoded frame. */
  lemma GivesUpOnlyOverBudget(log: seq<Event>, initial: Duration, cap: Duration, kind: ConsumeErrorKind)
    requires IsHistory(log, initial, cap)
    requires VerdictOf(log) == Over(Some(Consume(kind))) && kind in {HeartbeatMissed, NoResponders, Other}
    ensures kind == Other && Since(log, IsUnclassified) == 11
  {
    VerdictByKind(log, initial, cap);
  }

  /** From the failure that starts a recovery, a stretch of rebinds none of which fails with a
      missed heartbeat or an absent responder. */
  ghost predicate IsRecovery(log: seq<Event>, start: nat) {
    && 0 < start <= |log|
    && ErrorOf(log[start - 1]).Some? && log[start - 1].Next?
    && forall i :: start <= i < |log| ==>
         log[i].Rebind? && log[i].failure !in {Some(Consume(HeartbeatMissed)), Some(Consume(NoResponders))}
  }

  lemma {:induction false} RecoveryCounts(log: seq<Event>, start: nat, initial: Duration, cap: Duration)
    requires IsHistory(log, initial, cap) && IsRecovery(log, start)
    ensures |log| - start + OtherSince(log[..start]) <=
            OtherSince(log) + (if |log| > start && !IsOther(Last(log)) then 1 else 0)
    decreases |log|
  {
    if |log| > start {
      RecoveryCounts(Front(log), start, initial, cap);
      assert Last(log).Rebind? && VerdictOf(Front(log)).RebindDue?;
      assert Front(log)[..start] == log[..start];
    } else {
      assert log[..start] == log;
    }
  }

  /** One recovery makes at most eleven rebinds, less one for each unclassified failure already
      on the count when it starts. */
  lemma RecoveryTerminates(log: seq<Event>, start: nat, initial: Duration, cap: Duration)
    requires IsHistory(log, initial, cap) && IsRecovery(log, start)
    ensures |log| - start <= 11 - Since(log[..start], IsUnclassified)
  {
    UnclassifiedAreCounted(log[..start]);
    RecoveryCounts(log, start, initial, cap);
    BudgetHolds(log, initial, cap);
    if |log| > start {
      BudgetHolds(Front(log), initial, cap);
      assert VerdictOf(Front(log)).RebindDue?;
    }
  }

  /** The k-th rebind since the last decoded frame waits min(cap, initial * 2^(k-1)). */
  lemma {:induction false} RebindDelays(log: seq<Event>, initial: Duration, cap: Duration, at: nat)
    requires IsHistory(log, initial, cap) && initial <= cap
    requires at < |log| && log[at].Rebind?
    ensures log[at].delay == Min(initial * Pow2(RebindsSince(log[..at])), cap)
    decreases |log|
  {
    if at == |log| - 1 {
      NthFormula(initial, cap, RebindsSince(log[..at]));
      assert !VerdictOf(Front(log)).NextDue?;
    } else {
      RebindDelays(Front(log), initial, cap, at);
      assert Front(log)[..at] == log[..at];
    }
  }
}
