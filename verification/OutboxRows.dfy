/** One outbox row: its status, the transition after a publish attempt, the retry delay, the
    message id it dedups on, and the way it is staged and read back. */
module OutboxRows {
  import opened Arithmetic
  import opened Wrappers
  import opened Subjects

  const U32_MAX: nat := 0xFFFF_FFFF
  const U64_MAX: nat := 0xFFFF_FFFF_FFFF_FFFF
  const U128_MAX: nat := 0xFFFF_FFFF_FFFF_FFFF_FFFF_FFFF_FFFF_FFFF

  type U32 = x: int | 0 <= x <= U32_MAX

  datatype OutboxStatus = Pending | Published | Failed {
    predicate IsTerminal() {
      Published? || Failed?
    }
  }

  datatype Transition = Transition(status: OutboxStatus, attempts: U32)

  function AtLeastOne(n: U32): U32 {
    if n < 1 then 1 else n
  }

  function NextAfterAttempt(priorAttempts: U32, maxAttempts: U32, succeeded: bool): Transition {
    var attempts: U32 := Min(priorAttempts + 1, U32_MAX);
    var status :=
      if succeeded then Published
      else if attempts >= AtLeastOne(maxAttempts) then Failed
      else Pending;
    Transition(status, attempts)
  }

  /** One attempt in plain terms: a success publishes; a failure counts, and gives up at the
      configured number of attempts, or at once when fewer than one are configured. */
  lemma AttemptOutcome(prior: U32, maxAttempts: U32, succeeded: bool)
    ensures var t := NextAfterAttempt(prior, maxAttempts, succeeded);
            && (prior < U32_MAX ==> t.attempts == prior + 1)
            && (prior == U32_MAX ==> t.attempts == U32_MAX)
            && (succeeded ==> t.status == Published)
            && (!succeeded && prior < U32_MAX ==>
                  t.status == if maxAttempts == 0 || prior + 1 >= maxAttempts then Failed else Pending)
            && (!succeeded && prior == U32_MAX ==> t.status == Failed)
  {}

  // ----- retry delay -----

  const RETRY_BACKOFF_BASE: nat := 500
  const RETRY_BACKOFF_MAX: nat := 30_000

  /** Two to the shift, or the greatest 64-bit number when the shift is 64 or more. */
  function ShiftedOne(shift: nat): nat {
    if shift < 64 then Pow2(shift) else U64_MAX
  }

  /** In milliseconds, with the saturating multiplication of the source. */
  function RetryBackoff(attempts: U32): nat {
    var factor := ShiftedOne(AtLeastOne(attempts) - 1);
    Min(Min(RETRY_BACKOFF_BASE * factor, U128_MAX), RETRY_BACKOFF_MAX)
  }

  lemma {:induction false} Pow2Monotone(a: nat, b: nat)
    requires a <= b
    ensures Pow2(a) <= Pow2(b)
  {
    if a < b {
      Pow2Monotone(a, b - 1);
    }
  }

  lemma {:induction false} Pow2Sum(a: nat, b: nat)
    ensures Pow2(a + b) == Pow2(a) * Pow2(b)
  {
    if b > 0 {
      Pow2Sum(a, b - 1);
      assert Pow2(a + b) == 2 * Pow2(a + b - 1);
    }
  }

  lemma Pow2Of64()
    ensures Pow2(64) == U64_MAX + 1
  {
    assert Pow2(4) == 16 by { assert Pow2(2) == 4; }
    hide Pow2;
    Pow2Sum(4, 4);
    assert Pow2(8) == 0x100;
    Pow2Sum(8, 8);
    assert Pow2(16) == 0x1_0000;
    Pow2Sum(16, 16);
    assert Pow2(32) == 0x1_0000_0000;
    Pow2Sum(32, 32);
  }

  /** Capped doubling for every `u32`: no intermediate value overflows or saturates early. */
  lemma RetryBackoffFormula(attempts: U32)
    ensures RetryBackoff(attempts)
            == Min(30_000, 500 * Pow2(if attempts == 0 then 0 else attempts - 1))
    ensures AtLeastOne(attempts) <= 64 ==> ShiftedOne(AtLeastOne(attempts) - 1) <= U64_MAX
  {
    var shift := AtLeastOne(attempts) - 1;
    Pow2Of64();
    if shift < 64 {
      Pow2Monotone(shift, 63);
    } else {
      Pow2Monotone(64, shift);
    }
  }

  lemma RetryBackoffMonotone(a: U32, b: U32)
    requires a <= b
    ensures 500 <= RetryBackoff(a) <= RetryBackoff(b) <= 30_000
  {
    RetryBackoffFormula(a);
    RetryBackoffFormula(b);
    Pow2Monotone(AtLeastOne(a) - 1, AtLeastOne(b) - 1);
  }

  // ----- rows -----

  type Uuid = nat
  const NIL: Uuid := 0

  /** The `event_id` of a payload: absent, not a string, not a uuid, or a uuid. */
  datatype EventId = Absent | NotText | NotUuid | IsUuid(id: Uuid)

  datatype Payload = Payload(eventId: EventId, body: string)

  datatype MessageIdSource = Envelope | RowId

  function MessageIdFor(rowId: Uuid, payload: Payload): (Uuid, MessageIdSource) {
    match payload.eventId
    case IsUuid(id) => (id, Envelope)
    case NotUuid => (rowId, RowId)
    case NotText => (rowId, RowId)
    case Absent => (rowId, RowId)
  }

  datatype Row = Row(subject: string, payload: Payload, status: OutboxStatus, attempts: int)

  type Table = map<Uuid, Row>

  datatype PendingOutbox = PendingOutbox(id: Uuid, destination: EventCoords, payload: Payload, attempts: U32)

  /** The stored attempts, at least zero, cut to their low 32 bits. */
  function AttemptsOf(stored: int): U32 {
    (if stored < 0 then 0 else stored) % (U32_MAX + 1)
  }

  /** A negative count reads as none, and any count of 32 bits as itself. */
  lemma AttemptsAsStored(stored: int)
    ensures stored <= 0 ==> AttemptsOf(stored) == 0
    ensures 0 <= stored <= U32_MAX ==> AttemptsOf(stored) == stored
  {}

  function IntoPending(id: Uuid, row: Row): Result<PendingOutbox, ParseError> {
    match ParseEventSubject(row.subject)
    case Err(e) => Err(e)
    case Ok(destination) => Ok(PendingOutbox(id, destination, row.payload, AttemptsOf(row.attempts)))
  }

  /** A fresh pending row, unless the id is taken. */
  function Stage(table: Table, id: Uuid, destination: EventCoords, payload: Payload): Table {
    if id in table then table
    else table[id := Row(EventSubject(destination), payload, Pending, 0)]
  }

  datatype PublishResult = Stored | Duplicate | NoStream | OtherFailure {
    predicate IsOk() {
      Stored? || Duplicate?
    }
  }

  /** A missing stream leaves the attempts as they are; any other answer counts. */
  function TransitionFor(attempts: U32, maxAttempts: U32, result: PublishResult): Transition {
    if result.NoStream? then Transition(Pending, attempts)
    else NextAfterAttempt(attempts, maxAttempts, result.IsOk())
  }

  function Settle(row: Row, maxAttempts: U32, result: PublishResult): Row {
    var t := TransitionFor(AttemptsOf(row.attempts), maxAttempts, result);
    row.(status := t.status, attempts := t.attempts)
  }

  /** Rows that carry one event id send one message, whatever their row ids; rows that carry
      none send one message each. */
  lemma MessagesCoincide(a: Uuid, pa: Payload, b: Uuid, pb: Payload)
    ensures pa.eventId.IsUuid? && pb.eventId.IsUuid? ==>
              (MessageIdFor(a, pa).0 == MessageIdFor(b, pb).0 <==> pa.eventId == pb.eventId)
    ensures !pa.eventId.IsUuid? && !pb.eventId.IsUuid? ==>
              (MessageIdFor(a, pa).0 == MessageIdFor(b, pb).0 <==> a == b)
    ensures pa.eventId.IsUuid? ==> MessageIdFor(a, pa) == (pa.eventId.id, Envelope)
    ensures !pa.eventId.IsUuid? ==> MessageIdFor(a, pa) == (a, RowId)
  {}

  /** What every row of a table fed by `stage` and the relays under one policy satisfies. */
  ghost predicate RowInv(row: Row, maxAttempts: U32) {
    var cap := AtLeastOne(maxAttempts);
    && (exists c: EventCoords :: c.Valid() && row.subject == EventSubject(c))
    && match row.status
       case Pending => 0 <= row.attempts < cap
       case Published => 1 <= row.attempts <= cap
       case Failed => row.attempts == cap
  }

  ghost predicate TableInv(table: Table, maxAttempts: U32) {
    forall id :: id in table ==> RowInv(table[id], maxAttempts)
  }

  /** One attempt on a pending row keeps the row invariant, moves the row forward, and never
      touches its subject or payload. */
  lemma SettleKeepsRowInv(row: Row, maxAttempts: U32, result: PublishResult)
    requires RowInv(row, maxAttempts) && row.status.Pending?
    ensures var next := Settle(row, maxAttempts, result);
            && RowInv(next, maxAttempts)
            && next.subject == row.subject && next.payload == row.payload
            && next.attempts == row.attempts + (if result.NoStream? then 0 else 1)
            && (next.status.Published? <==> result.IsOk())
            && (next.status.Failed? <==> result.OtherFailure? && next.attempts == AtLeastOne(maxAttempts))
  {
    var c: EventCoords :| c.Valid() && row.subject == EventSubject(c);
    assert row.attempts < U32_MAX;
    var next := Settle(row, maxAttempts, result);
    assert c.Valid() && next.subject == EventSubject(c);
  }

  lemma StageKeepsTableInv(table: Table, maxAttempts: U32, id: Uuid, destination: EventCoords, payload: Payload)
    requires TableInv(table, maxAttempts) && destination.Valid()
    ensures TableInv(Stage(table, id, destination, payload), maxAttempts)
  {
    if id !in table {
      var row := Row(EventSubject(destination), payload, Pending, 0);
      assert destination.Valid() && row.subject == EventSubject(destination);
    }
  }

  /** A staged row is read back with exactly the destination it was staged with. */
  lemma StagedDestination(table: Table, id: Uuid, destination: EventCoords, payload: Payload)
    requires id !in table && destination.Valid()
    ensures var row := Stage(table, id, destination, payload)[id];
            IntoPending(id, row) == Ok(PendingOutbox(id, destination, payload, 0))
  {
    ParseOfRender(destination);
  }

  /** A row of a reachable table never has a destination error. */
  lemma ReadableRow(id: Uuid, row: Row, maxAttempts: U32)
    requires RowInv(row, maxAttempts)
    ensures var r := IntoPending(id, row);
            && r.Ok? && r.value.id == id && r.value.payload == row.payload && r.value.attempts == row.attempts
            && r.value.destination.Valid() && EventSubject(r.value.destination) == row.subject
  {
    var c: EventCoords :| c.Valid() && row.subject == EventSubject(c);
    ParseOfRender(c);
  }
}
