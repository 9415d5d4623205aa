/** One published health over several streams, with activations that replace one another and
    guards that end them. */
module ProjectorHealths {
  import opened WatchHealths

  datatype Stream = Users | Groups | ServiceAccounts

  /** One mutation: a new activation, a stream's report, or the drop of an activation's guard. */
  datatype Op = Activate(streams: set<Stream>) | Report(stream: Stream, health: WatchHealth) | Drop(generation: nat)

  function Last(ops: seq<Op>): Op
    requires ops != []
  {
    ops[|ops| - 1]
  }

  function Front(ops: seq<Op>): seq<Op>
    requires ops != []
  {
    ops[..|ops| - 1]
  }

  // ----- what a history means -----

  /** The number of activations so far, which is the number of the latest. */
  function Generation(ops: seq<Op>): nat
    decreases |ops|
  {
    if ops == [] then 0 else Generation(Front(ops)) + (if Last(ops).Activate? then 1 else 0)
  }

  ghost predicate LatestAt(ops: seq<Op>, a: int) {
    0 <= a < |ops| && ops[a].Activate? && forall j :: a < j < |ops| ==> !ops[j].Activate?
  }

  /** The latest activation's guard is still held. */
  ghost predicate GuardHeld(ops: seq<Op>) {
    exists a :: LatestAt(ops, a) && forall j :: a < j < |ops| ==> ops[j] != Drop(Generation(ops))
  }

  /** `health` is the last report of the stream since the latest activation. */
  ghost predicate LastReport(ops: seq<Op>, a: int, stream: Stream, health: WatchHealth)
    requires LatestAt(ops, a)
  {
    exists j :: a < j < |ops| && ops[j] == Report(stream, health) &&
      forall k :: j < k < |ops| ==> !(ops[k].Report? && ops[k].stream == stream)
  }

  /** What receivers should see. */
  ghost predicate ShouldBeHealthy(ops: seq<Op>) {
    && GuardHeld(ops)
    && exists a :: LatestAt(ops, a) && ops[a].streams != {} &&
         forall s :: s in ops[a].streams ==> LastReport(ops, a, s, Healthy)
  }

  // ----- the same, one mutation at a time -----

  function Applied(streams: map<Stream, WatchHealth>, op: Op, current: nat): map<Stream, WatchHealth> {
    match op
    case Activate(active) => map s | s in active :: Degraded
    case Report(stream, health) => if stream in streams then streams[stream := health] else streams
    case Drop(generation) => if current == generation then map[] else streams
  }

  function StreamsAfter(ops: seq<Op>): map<Stream, WatchHealth>
    decreases |ops|
  {
    if ops == [] then map[] else Applied(StreamsAfter(Front(ops)), Last(ops), Generation(Front(ops)))
  }

  predicate AllHealthy(streams: map<Stream, WatchHealth>) {
    streams != map[] && forall s :: s in streams ==> streams[s].Healthy?
  }

  lemma LatestSnoc(ops: seq<Op>, op: Op, a: int)
    ensures LatestAt(ops + [op], a) <==> if op.Activate? then a == |ops| else LatestAt(ops, a)
  {
    var all := ops + [op];
    assert all[|ops|] == op;
    if 0 <= a < |ops| {
      assert all[a] == ops[a];
    }
    if LatestAt(all, a) && !op.Activate? {
      forall j | a < j < |ops|
        ensures !ops[j].Activate?
      {
        assert all[j] == ops[j];
      }
    }
  }

  lemma GuardSnoc(ops: seq<Op>, op: Op)
    ensures GuardHeld(ops + [op]) <==> op.Activate? || (GuardHeld(ops) && op != Drop(Generation(ops)))
  {
    var all := ops + [op];
    assert Front(all) == ops && Last(all) == op;
    if op.Activate? {
      LatestSnoc(ops, op, |ops|);
    } else {
      if GuardHeld(all) {
        var a :| LatestAt(all, a) && forall j :: a < j < |all| ==> all[j] != Drop(Generation(all));
        LatestSnoc(ops, op, a);
        assert all[|ops|] == op;
        forall j | a < j < |ops|
          ensures ops[j] != Drop(Generation(ops))
        {
          assert all[j] == ops[j];
        }
      }
      if GuardHeld(ops) && op != Drop(Generation(ops)) {
        var a :| LatestAt(ops, a) && forall j :: a < j < |ops| ==> ops[j] != Drop(Generation(ops));
        LatestSnoc(ops, op, a);
      }
    }
  }

  lemma ReportSnoc(ops: seq<Op>, op: Op, a: int, s: Stream, health: WatchHealth)
    requires LatestAt(ops, a) && !op.Activate?
    ensures LatestAt(ops + [op], a)
    ensures LastReport(ops + [op], a, s, health) <==>
            if op.Report? && op.stream == s then op.health == health else LastReport(ops, a, s, health)
  {
    var all := ops + [op];
    LatestSnoc(ops, op, a);
    assert all[|ops|] == op;
    if LastReport(all, a, s, health) {
      var j :| a < j < |all| && all[j] == Report(s, health) &&
        forall k :: j < k < |all| ==> !(all[k].Report? && all[k].stream == s);
      if j < |ops| {
        assert ops[j] == Report(s, health);
        forall k | j < k < |ops|
          ensures !(ops[k].Report? && ops[k].stream == s)
        {
          assert all[k] == ops[k];
        }
      }
    }
    if LastReport(ops, a, s, health) && !(op.Report? && op.stream == s) {
      var j :| a < j < |ops| && ops[j] == Report(s, health) &&
        forall k :: j < k < |ops| ==> !(ops[k].Report? && ops[k].stream == s);
      assert all[j] == Report(s, health);
    }
    if op == Report(s, health) {
      assert all[|ops|] == Report(s, health);
    }
  }

  /** The stream map, entry by entry, is the history's meaning. */
  lemma {:induction false} StreamsMean(ops: seq<Op>, a: int, s: Stream)
    requires LatestAt(ops, a)
    ensures s in StreamsAfter(ops) <==> GuardHeld(ops) && s in ops[a].streams
    ensures s in StreamsAfter(ops) ==> (StreamsAfter(ops)[s].Healthy? <==> LastReport(ops, a, s, Healthy))
    decreases |ops|
  {
    var front, op := Front(ops), Last(ops);
    assert ops == front + [op];
    LatestSnoc(front, op, a);
    GuardSnoc(front, op);
    if !op.Activate? {
      StreamsMean(front, a, s);
      ReportSnoc(front, op, a, s, Healthy);
    }
  }

  lemma {:induction false} NothingBeforeActivation(ops: seq<Op>)
    requires forall a :: !LatestAt(ops, a)
    ensures StreamsAfter(ops) == map[]
    decreases |ops|
  {
    if ops != [] {
      assert ops == Front(ops) + [Last(ops)];
      LatestSnoc(Front(ops), Last(ops), |ops| - 1);
      forall a
        ensures !LatestAt(Front(ops), a)
      {
        LatestSnoc(Front(ops), Last(ops), a);
      }
      NothingBeforeActivation(Front(ops));
    }
  }

  lemma OneLatest(ops: seq<Op>, a: int, b: int)
    requires LatestAt(ops, a) && LatestAt(ops, b)
    ensures a == b
  {}

  /** The streams are all healthy exactly when the history says so. */
  lemma HealthyIff(ops: seq<Op>)
    ensures AllHealthy(StreamsAfter(ops)) <==> ShouldBeHealthy(ops)
  {
    if a :| LatestAt(ops, a) {
      forall s
        ensures s in StreamsAfter(ops) <==> GuardHeld(ops) && s in ops[a].streams
        ensures s in StreamsAfter(ops) ==> (StreamsAfter(ops)[s].Healthy? <==> LastReport(ops, a, s, Healthy))
      {
        StreamsMean(ops, a, s);
      }
      if AllHealthy(StreamsAfter(ops)) {
        var s :| s in StreamsAfter(ops);
        assert s in ops[a].streams;
      }
      if ShouldBeHealthy(ops) {
        var b :| LatestAt(ops, b) && ops[b].streams != {} &&
          forall s :: s in ops[b].streams ==> LastReport(ops, b, s, Healthy);
        OneLatest(ops, a, b);
        var s :| s in ops[a].streams;
        assert s in StreamsAfter(ops);
      }
    } else {
      NothingBeforeActivation(ops);
    }
  }

  /** The drop of a superseded guard, however late, changes nothing from then on. */
  lemma {:induction false} LateDropsDoNotMatter(before: seq<Op>, generation: nat, after: seq<Op>)
    requires generation < Generation(before)
    ensures Generation(before + [Drop(generation)] + after) == Generation(before + after)
    ensures Generation(before) <= Generation(before + after)
    ensures StreamsAfter(before + [Drop(generation)] + after) == StreamsAfter(before + after)
    ensures ShouldBeHealthy(before + [Drop(generation)] + after) <==> ShouldBeHealthy(before + after)
    decreases |after|
  {
    var long, short := before + [Drop(generation)] + after, before + after;
    if after == [] {
      assert long == before + [Drop(generation)] && Front(long) == before && short == before;
    } else {
      LateDropsDoNotMatter(before, generation, Front(after));
      assert Front(long) == before + [Drop(generation)] + Front(after) && Front(short) == before + Front(after);
      assert Last(long) == Last(after) == Last(short);
    }
    HealthyIff(long);
    HealthyIff(short);
  }

  lemma OneDrop(ops: seq<Op>, guard: nat)
    ensures Generation(ops + [Drop(guard)]) == Generation(ops)
    ensures StreamsAfter(ops + [Drop(guard)]) == if guard == Generation(ops) then map[] else StreamsAfter(ops)
    ensures guard != Generation(ops) ==> (ShouldBeHealthy(ops + [Drop(guard)]) <==> ShouldBeHealthy(ops))
  {
    assert Front(ops + [Drop(guard)]) == ops;
    HealthyIff(ops);
    HealthyIff(ops + [Drop(guard)]);
  }

  // ----- the object -----

  class ProjectorHealth {
    var published: WatchHealth
    var generation: nat
    var streams: map<Stream, WatchHealth>
    ghost var history: seq<Op>

    ghost predicate Valid()
      reads this
    {
      && generation == Generation(history)
      && streams == StreamsAfter(history)
      && (published.Healthy? <==> ShouldBeHealthy(history))
    }

    constructor ()
      ensures Valid() && history == [] && published.Degraded?
    {
      published, generation, streams, history := Degraded, 0, map[], [];
      HealthyIff([]);
    }

    method Publish()
      requires generation == Generation(history) && streams == StreamsAfter(history)
      modifies this`published
      ensures Valid()
    {
      HealthyIff(history);
      var composed := WorstOf(streams);
      if published != composed {
        published := composed;
      }
    }

    /** The result is the number the guard carries. */
    method Activate(active: seq<Stream>) returns (guard: nat)
      requires Valid()
      modifies this
      ensures Valid() && history == old(history) + [Op.Activate(set s | s in active)]
      ensures guard == Generation(history) == old(generation) + 1
    {
      generation := generation + 1;
      streams := map s | s in active :: Degraded;
      guard := generation;
      ghost var op := Op.Activate(set s | s in active);
      assert Front(history + [op]) == history;
      history := history + [op];
      Publish();
    }

    method Set(stream: Stream, health: WatchHealth)
      requires Valid()
      modifies this
      ensures Valid() && history == old(history) + [Report(stream, health)]
    {
      if stream in streams {
        streams := streams[stream := health];
      }
      assert Front(history + [Report(stream, health)]) == history;
      history := history + [Report(stream, health)];
      Publish();
    }

    method Deactivate(guard: nat)
      requires Valid()
      modifies this
      ensures Valid() && history == old(history) + [Drop(guard)]
      ensures guard != old(generation) ==> published == old(published)
    {
      hide ShouldBeHealthy, StreamsAfter, Generation;
      OneDrop(history, guard);
      if generation == guard {
        streams := map[];
      }
      history := history + [Drop(guard)];
      Publish();
    }
  }

  function WorstOf(streams: map<Stream, WatchHealth>): (r: WatchHealth)
    ensures r.Healthy? <==> AllHealthy(streams)
  {
    if |streams| > 0 && forall s :: s in streams ==> streams[s].Healthy? then Healthy else Degraded
  }
}
