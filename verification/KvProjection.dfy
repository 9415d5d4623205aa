/** The consumer's local copy of the bucket: a bootstrap from a full scan, then one sink call
    for each watched log entry, proved against the scan it stands for. */
module KvProjection {
  import opened Wrappers
  import opened KvKeys

  datatype Entry<V> = Put(key: KvKey, value: V) | Delete(key: KvKey) | Purge(key: KvKey)

  // ----- the bucket's log and what a full rescan would see of it -----

  function Stored<V>(entry: Entry<V>): Option<V> {
    if entry.Put? then Some(entry.value) else None
  }

  /** The bucket's content for a key after the whole log: its last entry decides. */
  function BucketAt<V>(log: seq<Entry<V>>, key: KvKey): Option<V>
    decreases |log|
  {
    if log == [] then None
    else if log[|log| - 1].key == key then Stored(log[|log| - 1])
    else BucketAt(log[..|log| - 1], key)
  }

  /** Which keys and values a consumer copies. */
  datatype Selection<!V> = Selection(prefixes: seq<KvPrefix>, copyFilter: V -> bool)

  predicate Watched<V>(sel: Selection<V>, key: KvKey) {
    exists i :: 0 <= i < |sel.prefixes| && Matches(sel.prefixes[i], key)
  }

  /** A key is watched under any of the prefixes, in whatever order they are listed. */
  lemma WatchedUnderAny<V>(sel: Selection<V>, key: KvKey, more: Selection<V>)
    requires more.prefixes != [] && sel.prefixes == more.prefixes[1..]
    ensures Watched(more, key) <==> more.prefixes[0] <= key || Watched(sel, key)
  {
    if Watched(sel, key) {
      var i :| 0 <= i < |sel.prefixes| && Matches(sel.prefixes[i], key);
      assert Matches(more.prefixes[i + 1], key);
    }
    if more.prefixes[0] <= key {
      assert Matches(more.prefixes[0], key);
    }
    if i :| 0 < i < |more.prefixes| && Matches(more.prefixes[i], key) {
      assert Matches(sel.prefixes[i - 1], key);
    }
  }

  function Passing<V>(sel: Selection<V>, value: Option<V>): Option<V> {
    if value.Some? && sel.copyFilter(value.value) then value else None
  }

  /** What the copy should hold for a watched key after the log. */
  function View<V>(sel: Selection<V>, log: seq<Entry<V>>, key: KvKey): Option<V> {
    Passing(sel, BucketAt(log, key))
  }

  ghost predicate Agrees<V>(sel: Selection<V>, rows: map<KvKey, V>, log: seq<Entry<V>>) {
    forall k: KvKey :: Watched(sel, k) ==> Lookup(rows, k) == View(sel, log, k)
  }

  // ----- the incremental side -----

  datatype EntryAction = Project | Retract

  function DecidePut<V>(sel: Selection<V>, value: V): EntryAction {
    if sel.copyFilter(value) then Project else Retract
  }

  function Applied<V>(sel: Selection<V>, rows: map<KvKey, V>, entry: Entry<V>): map<KvKey, V> {
    if !Watched(sel, entry.key) then rows
    else if entry.Put? && DecidePut(sel, entry.value).Project? then rows[entry.key := entry.value]
    else rows - {entry.key}
  }

  function Follow<V>(sel: Selection<V>, rows: map<KvKey, V>, entries: seq<Entry<V>>): map<KvKey, V>
    decreases |entries|
  {
    if entries == [] then rows
    else Applied(sel, Follow(sel, rows, entries[..|entries| - 1]), entries[|entries| - 1])
  }

  lemma NothingFollowed<V>(sel: Selection<V>, rows: map<KvKey, V>)
    ensures Follow(sel, rows, []) == rows
  {}

  lemma FollowSnoc<V>(sel: Selection<V>, rows: map<KvKey, V>, done: seq<Entry<V>>, entry: Entry<V>)
    ensures var before := Follow(sel, rows, done);
            Follow(sel, rows, done + [entry]) ==
            if Watched(sel, entry.key) then Applied(sel, before, entry) else before
  {
    assert (done + [entry])[..|done|] == done;
  }

  ghost predicate Mentions<V>(entries: seq<Entry<V>>, key: KvKey) {
    exists i :: 0 <= i < |entries| && entries[i].key == key
  }

  lemma MentionsSnoc<V>(entries: seq<Entry<V>>, entry: Entry<V>, key: KvKey)
    ensures Mentions(entries + [entry], key) <==> Mentions(entries, key) || entry.key == key
  {
    var all := entries + [entry];
    if Mentions(entries, key) {
      var i :| 0 <= i < |entries| && entries[i].key == key;
      assert all[i].key == key;
    }
    if entry.key == key {
      assert all[|entries|].key == key;
    }
    if Mentions(all, key) && entry.key != key {
      var i :| 0 <= i < |all| && all[i].key == key;
      assert i < |entries| && entries[i].key == key;
    }
  }

  /** One watched key across a stretch of the log: if the stretch mentions it, the copy ends
      with the key's view, whatever it held before; if not, neither the copy nor the bucket
      moves. */
  lemma {:induction false} FollowedKey<V>(
      sel: Selection<V>, rows: map<KvKey, V>, before: seq<Entry<V>>, entries: seq<Entry<V>>, key: KvKey)
    requires Watched(sel, key)
    ensures Lookup(Follow(sel, rows, entries), key) ==
            if Mentions(entries, key) then View(sel, before + entries, key) else Lookup(rows, key)
    ensures !Mentions(entries, key) ==> BucketAt(before + entries, key) == BucketAt(before, key)
    decreases |entries|
  {
    if entries == [] {
      assert before + entries == before;
    } else {
      var front, last := entries[..|entries| - 1], entries[|entries| - 1];
      assert entries == front + [last];
      MentionsSnoc(front, last, key);
      FollowedKey(sel, rows, before, front, key);
      assert before + entries == before + front + [last];
      BucketSnoc(before + front, last, key);
      FollowSnoc(sel, rows, front, last);
      hide Follow, BucketAt, Mentions;
    }
  }

  lemma BucketSnoc<V>(log: seq<Entry<V>>, last: Entry<V>, key: KvKey)
    ensures BucketAt(log + [last], key) == if last.key == key then Stored(last) else BucketAt(log, key)
  {
    assert (log + [last])[..|log|] == log;
  }

  lemma {:induction false} FollowLeavesUnwatched<V>(
      sel: Selection<V>, rows: map<KvKey, V>, entries: seq<Entry<V>>, key: KvKey)
    requires !Watched(sel, key)
    ensures Lookup(Follow(sel, rows, entries), key) == Lookup(rows, key)
    decreases |entries|
  {
    if entries != [] {
      FollowLeavesUnwatched(sel, rows, entries[..|entries| - 1], key);
    }
  }

  /** Incremental projection refines a full rescan at every step of any log, with values that
      start or stop passing the filter along the way. */
  lemma FollowKeepsAgreement<V>(
      sel: Selection<V>, rows: map<KvKey, V>, log: seq<Entry<V>>, from: nat, to: nat)
    requires from <= to <= |log|
    requires Agrees(sel, rows, log[..from])
    ensures Agrees(sel, Follow(sel, rows, log[from..to]), log[..to])
  {
    assert log[..to] == log[..from] + log[from..to];
    forall k: KvKey | Watched(sel, k)
      ensures Lookup(Follow(sel, rows, log[from..to]), k) == View(sel, log[..to], k)
    {
      FollowedKey(sel, rows, log[..from], log[from..to], k);
    }
  }

  /** Replaying any suffix of the log over a copy that is up to date ends in the same copy. */
  lemma ReplayIsHarmless<V>(sel: Selection<V>, rows: map<KvKey, V>, log: seq<Entry<V>>, from: nat)
    requires from <= |log|
    requires Agrees(sel, rows, log)
    ensures Follow(sel, rows, log[from..]) == rows
  {
    var after := Follow(sel, rows, log[from..]);
    assert log == log[..from] + log[from..];
    forall k: KvKey | k in after || k in rows
      ensures Lookup(after, k) == Lookup(rows, k)
    {
      if Watched(sel, k) {
        FollowedKey(sel, rows, log[..from], log[from..], k);
      } else {
        FollowLeavesUnwatched(sel, rows, log[from..], k);
      }
    }
    SameLookups(after, rows);
  }

  // ----- the bootstrap, read while the log moves -----

  /** A scan lists the keys at one point of the log and reads each listed key at a later one. */
  datatype ScanTimes = ScanTimes(listed: nat, readAt: map<KvKey, nat>)

  /** When the scan learned what it knows of a key. */
  function LearnedAt<V>(log: seq<Entry<V>>, scan: ScanTimes, key: KvKey): nat {
    if key in scan.readAt then scan.readAt[key] else scan.listed
  }

  /** The listing holds every key that is in the bucket at that point. */
  ghost predicate ScanOf<V>(log: seq<Entry<V>>, scan: ScanTimes) {
    && scan.listed <= |log|
    && (forall k :: k in scan.readAt ==> scan.listed <= scan.readAt[k] <= |log|)
    && (forall k: KvKey :: BucketAt(log[..scan.listed], k).Some? ==> k in scan.readAt)
  }

  function Learned<V>(sel: Selection<V>, log: seq<Entry<V>>, scan: ScanTimes, key: KvKey): Option<V>
    requires LearnedAt(log, scan, key) <= |log|
  {
    View(sel, log[..LearnedAt(log, scan, key)], key)
  }

  ghost predicate Bootstrapped<V>(
      sel: Selection<V>, before: map<KvKey, V>, after: map<KvKey, V>, log: seq<Entry<V>>, scan: ScanTimes)
    requires ScanOf(log, scan)
  {
    forall k: KvKey ::
      Lookup(after, k) == if Watched(sel, k) then Learned(sel, log, scan, k) else Lookup(before, k)
  }

  /** A bootstrap cut short has touched watched keys only, and each only with its new content. */
  ghost predicate PartlyBootstrapped<V>(
      sel: Selection<V>, before: map<KvKey, V>, after: map<KvKey, V>, log: seq<Entry<V>>, scan: ScanTimes)
    requires ScanOf(log, scan)
  {
    forall k: KvKey ::
      || Lookup(after, k) == Lookup(before, k)
      || (Watched(sel, k) && Lookup(after, k) == Learned(sel, log, scan, k))
  }

  ghost function ToProject<V>(sel: Selection<V>, log: seq<Entry<V>>, scan: ScanTimes): set<KvKey>
    requires ScanOf(log, scan)
  {
    set k | k in scan.readAt && Watched(sel, k) && Learned(sel, log, scan, k).Some?
  }

  ghost function ToRetract<V>(sel: Selection<V>, rows: map<KvKey, V>, log: seq<Entry<V>>, scan: ScanTimes): set<KvKey>
    requires ScanOf(log, scan)
  {
    set k | k in rows && Watched(sel, k) && Learned(sel, log, scan, k).None?
  }

  lemma DesiredKeys<V>(sel: Selection<V>, log: seq<Entry<V>>, scan: ScanTimes, desired: map<KvKey, V>)
    requires ScanOf(log, scan)
    requires forall k: KvKey ::
               Lookup(desired, k) == if Watched(sel, k) then Learned(sel, log, scan, k) else None
    ensures desired.Keys == ToProject(sel, log, scan)
  {
    forall k: KvKey
      ensures k in desired <==> k in ToProject(sel, log, scan)
    {
      assert Lookup(desired, k) == if Watched(sel, k) then Learned(sel, log, scan, k) else None;
    }
  }

  lemma OrphanKeys<V>(
      sel: Selection<V>, before: map<KvKey, V>, now: map<KvKey, V>, log: seq<Entry<V>>, scan: ScanTimes,
      desired: map<KvKey, V>, orphans: set<KvKey>)
    requires ScanOf(log, scan)
    requires forall k: KvKey ::
               Lookup(desired, k) == if Watched(sel, k) then Learned(sel, log, scan, k) else None
    requires forall k: KvKey :: Lookup(now, k) == if k in desired then Lookup(desired, k) else Lookup(before, k)
    requires orphans == set k | k in now && Watched(sel, k) && k !in desired
    ensures orphans == ToRetract(sel, before, log, scan)
  {}

  lemma CutShort<V>(
      sel: Selection<V>, before: map<KvKey, V>, now: map<KvKey, V>, log: seq<Entry<V>>, scan: ScanTimes,
      desired: map<KvKey, V>, gone: set<KvKey>)
    requires ScanOf(log, scan)
    requires forall k: KvKey ::
               Lookup(desired, k) == if Watched(sel, k) then Learned(sel, log, scan, k) else None
    requires gone == {} || gone == ToRetract(sel, before, log, scan)
    requires forall k: KvKey ::
               || Lookup(now, k) == Lookup(before, k)
               || (k in desired && Lookup(now, k) == Lookup(desired, k))
               || (k in gone && Lookup(now, k) == None)
    ensures PartlyBootstrapped(sel, before, now, log, scan)
  {}

  lemma RanThrough<V>(
      sel: Selection<V>, before: map<KvKey, V>, now: map<KvKey, V>, log: seq<Entry<V>>, scan: ScanTimes,
      desired: map<KvKey, V>, gone: set<KvKey>)
    requires ScanOf(log, scan)
    requires forall k: KvKey ::
               Lookup(desired, k) == if Watched(sel, k) then Learned(sel, log, scan, k) else None
    requires gone == ToRetract(sel, before, log, scan)
    requires forall k: KvKey ::
               Lookup(now, k) ==
               if k in gone then None else if k in desired then Lookup(desired, k) else Lookup(before, k)
    ensures Bootstrapped(sel, before, now, log, scan)
  {}

  lemma NothingTouched<V>(sel: Selection<V>, rows: map<KvKey, V>, log: seq<Entry<V>>, scan: ScanTimes)
    requires ScanOf(log, scan)
    ensures PartlyBootstrapped(sel, rows, rows, log, scan)
  {}

  /** How many of the listed keys are watched. */
  function WatchedAmong<V>(sel: Selection<V>, listing: seq<KvKey>): nat
    decreases |listing|
  {
    if listing == [] then 0
    else WatchedAmong(sel, listing[..|listing| - 1]) + (if Watched(sel, listing[|listing| - 1]) then 1 else 0)
  }

  /** The bucket calls of a scan: the listing, each key it yields, and each watched value. */
  function Reads<V>(sel: Selection<V>, listing: seq<KvKey>): nat {
    1 + |listing| + WatchedAmong(sel, listing)
  }

  lemma {:induction false} ReadsGrow<V>(sel: Selection<V>, listing: seq<KvKey>, n: nat)
    requires n <= |listing|
    ensures Reads(sel, listing[..n]) <= Reads(sel, listing)
    decreases |listing|
  {
    if n < |listing| {
      assert Reads(sel, listing[..|listing| - 1]) <= Reads(sel, listing);
      ReadsGrow(sel, listing[..|listing| - 1], n);
      assert listing[..|listing| - 1][..n] == listing[..n];
    } else {
      assert listing[..n] == listing;
    }
  }

  // ----- the imperative consumer -----

  /** What the watch yields: an entry of the log, or a broken stream. */
  datatype WatchItem<V> = Delivered(entry: Entry<V>) | Broken

  datatype Outcome = Finished | WatchFailed | SinkFailed

  /** The entries that a loop gets through when the sink accepts `calls` calls, and why it ends. */
  function Through<V>(sel: Selection<V>, items: seq<WatchItem<V>>, calls: nat): (seq<Entry<V>>, Outcome)
    decreases |items|
  {
    if items == [] then ([], Finished)
    else if items[0].Broken? then ([], WatchFailed)
    else
      var entry := items[0].entry;
      if Watched(sel, entry.key) && calls == 0 then ([], SinkFailed)
      else
        var (rest, why) := Through(sel, items[1..], if Watched(sel, entry.key) then calls - 1 else calls);
        ([entry] + rest, why)
  }

  /** The loop has got through `done` with `left` calls to go, and stands before item `i`. */
  ghost predicate SoFar<V>(
      sel: Selection<V>, items: seq<WatchItem<V>>, calls: nat, i: nat, left: nat, done: seq<Entry<V>>)
    requires i <= |items|
  {
    && Through(sel, items, calls).0 == done + Through(sel, items[i..], left).0
    && Through(sel, items, calls).1 == Through(sel, items[i..], left).1
  }

  lemma SoFarStarts<V>(sel: Selection<V>, items: seq<WatchItem<V>>, calls: nat)
    ensures SoFar(sel, items, calls, 0, calls, [])
  {
    hide Through;
    assert items[0..] == items;
  }

  lemma SoFarSteps<V>(
      sel: Selection<V>, items: seq<WatchItem<V>>, calls: nat, i: nat, left: nat, done: seq<Entry<V>>)
    requires i < |items| && SoFar(sel, items, calls, i, left, done)
    ensures if items[i].Broken? then Through(sel, items, calls) == (done, WatchFailed)
            else
              var entry := items[i].entry;
              if Watched(sel, entry.key) && left == 0 then Through(sel, items, calls) == (done, SinkFailed)
              else
                SoFar(sel, items, calls, i + 1, if Watched(sel, entry.key) then left - 1 else left, done + [entry])
  {
    hide Watched;
    assert items[i..][1..] == items[i + 1..];
    assert done + [] == done;
    if items[i].Delivered? && !(Watched(sel, items[i].entry.key) && left == 0) {
      var rest := Through(sel, items[i + 1..], if Watched(sel, items[i].entry.key) then left - 1 else left).0;
      assert done + ([items[i].entry] + rest) == done + [items[i].entry] + rest;
    }
  }

  lemma SoFarEnds<V>(sel: Selection<V>, items: seq<WatchItem<V>>, calls: nat, left: nat, done: seq<Entry<V>>)
    requires SoFar(sel, items, calls, |items|, left, done)
    ensures Through(sel, items, calls) == (done, Finished)
  {
    assert done + [] == done;
  }

  /** How many sink calls the entries take. */
  function WatchedIn<V>(sel: Selection<V>, entries: seq<Entry<V>>): nat {
    if entries == [] then 0
    else (if Watched(sel, entries[0].key) then 1 else 0) + WatchedIn(sel, entries[1..])
  }

  function EntriesOf<V>(items: seq<WatchItem<V>>): seq<Entry<V>>
    requires forall i :: 0 <= i < |items| ==> items[i].Delivered?
  {
    if items == [] then [] else [items[0].entry] + EntriesOf(items[1..])
  }

  /** The loop makes no more sink calls than succeed, and reports a refused one only when they are
      used up. */
  lemma {:induction false} ThroughUsesItsCalls<V>(sel: Selection<V>, items: seq<WatchItem<V>>, calls: nat)
    ensures var (entries, why) := Through(sel, items, calls);
            && WatchedIn(sel, entries) <= calls
            && (why.SinkFailed? ==> WatchedIn(sel, entries) == calls)
    decreases |items|
  {
    if items != [] && items[0].Delivered? {
      hide Watched;
      var left := if Watched(sel, items[0].entry.key) then calls - 1 else calls;
      if left >= 0 {
        ThroughUsesItsCalls(sel, items[1..], left);
        var rest := Through(sel, items[1..], left).0;
        assert ([items[0].entry] + rest)[1..] == rest;
      }
    }
  }

  /** If everything is delivered and the sink accepts a call for each watched entry, the loop
      gets through all of it. */
  lemma {:induction false} EnoughCallsFinish<V>(sel: Selection<V>, items: seq<WatchItem<V>>, calls: nat)
    requires forall i :: 0 <= i < |items| ==> items[i].Delivered?
    requires calls >= WatchedIn(sel, EntriesOf(items))
    ensures Through(sel, items, calls) == (EntriesOf(items), Finished)
    decreases |items|
  {
    if items != [] {
      hide Watched;
      var left := if Watched(sel, items[0].entry.key) then calls - 1 else calls;
      assert EntriesOf(items)[1..] == EntriesOf(items[1..]);
      EnoughCallsFinish(sel, items[1..], left);
    }
  }

  /** What a loop gets through is a prefix of what was delivered: all of it if it finished, and
      up to the break or the refused call if not. */
  lemma {:induction false} ThroughIsAPrefix<V>(sel: Selection<V>, items: seq<WatchItem<V>>, calls: nat)
    ensures var (entries, why) := Through(sel, items, calls);
            && |entries| <= |items|
            && (forall i :: 0 <= i < |entries| ==> items[i] == Delivered(entries[i]))
            && (why.Finished? <==> |entries| == |items|)
            && (why.WatchFailed? ==> items[|entries|].Broken?)
            && (why.SinkFailed? ==> items[|entries|].Delivered? && Watched(sel, items[|entries|].entry.key))
    decreases |items|
  {
    if items != [] && items[0].Delivered? {
      hide Watched;
      var left := if Watched(sel, items[0].entry.key) then calls - 1 else calls;
      if left >= 0 {
        ThroughIsAPrefix(sel, items[1..], left);
      }
    }
  }

  class Consumer<V(==)> {
    const sel: Selection<V>
    var rows: map<KvKey, V>

    constructor (sel: Selection<V>, rows: map<KvKey, V>)
      ensures this.sel == sel && this.rows == rows
    {
      this.sel := sel;
      this.rows := rows;
    }

    method ApplyEntry(entry: Entry<V>)
      requires Watched(sel, entry.key)
      modifies this
      ensures rows == Applied(sel, old(rows), entry)
    {
      match entry
      case Delete(key) => rows := rows - {key};
      case Purge(key) => rows := rows - {key};
      case Put(key, value) =>
        match DecidePut(sel, value)
        case Project => rows := rows[key := value];
        case Retract => rows := rows - {key};
    }

    /** `calls` sink calls succeed and the next fails. */
    method FollowOnce(isOpen: bool, items: seq<WatchItem<V>>, calls: nat) returns (delivered: bool, outcome: Outcome)
      modifies this
      ensures !isOpen ==> !delivered && outcome.WatchFailed? && rows == old(rows)
      ensures isOpen ==>
                && rows == Follow(sel, old(rows), Through(sel, items, calls).0)
                && outcome == Through(sel, items, calls).1
                && (delivered <==> items != [] && items[0].Delivered?)
    {
      if !isOpen {
        return false, WatchFailed;
      }
      hide Watched, Applied, Follow, Through, SoFar;
      delivered := false;
      var left: nat := calls;
      ghost var done: seq<Entry<V>> := [];
      NothingFollowed(sel, rows);
      SoFarStarts(sel, items, calls);
      for i := 0 to |items|
        invariant delivered <==> i > 0
        invariant i > 0 ==> items[0].Delivered?
        invariant SoFar(sel, items, calls, i, left, done)
        invariant rows == Follow(sel, old(rows), done)
      {
        SoFarSteps(sel, items, calls, i, left, done);
        if items[i].Broken? {
          return delivered, WatchFailed;
        }
        delivered := true;
        var entry := items[i].entry;
        FollowSnoc(sel, old(rows), done, entry);
        if Watched(sel, entry.key) {
          if left == 0 {
            return delivered, SinkFailed;
          }
          left := left - 1;
          ApplyEntry(entry);
        }
        done := done + [entry];
      }
      SoFarEnds(sel, items, calls, left, done);
      outcome := Finished;
    }

    /** The listing and each read happen at their own point of the log. `bucketCalls` bucket calls
        succeed and the next fails, which ends the scan with nothing. */
    method ScanPassing(
        ghost log: seq<Entry<V>>, listing: seq<KvKey>, ghost scan: ScanTimes,
        answers: map<KvKey, Option<V>>, bucketCalls: nat)
      returns (ok: bool, passing: map<KvKey, V>)
      requires ScanOf(log, scan)
      requires forall k :: k in listing <==> k in scan.readAt
      requires answers.Keys == scan.readAt.Keys
      requires forall k :: k in answers ==> answers[k] == BucketAt(log[..scan.readAt[k]], k)
      ensures ok <==> Reads(sel, listing) <= bucketCalls
      ensures ok ==> forall k: KvKey ::
                Lookup(passing, k) == if Watched(sel, k) then Learned(sel, log, scan, k) else None
    {
      if bucketCalls == 0 {
        return false, map[];
      }
      passing := map[];
      var left: nat := bucketCalls - 1;
      for i := 0 to |listing|
        invariant bucketCalls == Reads(sel, listing[..i]) + left
        invariant forall k: KvKey ::
                    Lookup(passing, k) ==
                    if Watched(sel, k) && k in listing[..i] then Learned(sel, log, scan, k) else None
      {
        var key := listing[i];
        assert listing[..i + 1] == listing[..i] + [key];
        ReadsGrow(sel, listing, i + 1);
        var needed := if Watched(sel, key) then 2 else 1;
        if left < needed {
          return false, map[];
        }
        left := left - needed;
        if Watched(sel, key) && answers[key].Some? && sel.copyFilter(answers[key].value) {
          passing := passing[key := answers[key].value];
        }
      }
      assert listing[..|listing|] == listing;
      ok := true;
    }

    /** Projects everything that passes, asks the sink for its keys, then retracts the watched
        ones it holds beyond that. `bucketCalls` bucket calls and `calls` sink calls succeed and the
        next of either fails, which ends the bootstrap where it is. */
    method Bootstrap(
        ghost log: seq<Entry<V>>, listing: seq<KvKey>, ghost scan: ScanTimes,
        answers: map<KvKey, Option<V>>, bucketCalls: nat, calls: nat)
      returns (ok: bool)
      requires ScanOf(log, scan)
      requires forall k :: k in listing <==> k in scan.readAt
      requires answers.Keys == scan.readAt.Keys
      requires forall k :: k in answers ==> answers[k] == BucketAt(log[..scan.readAt[k]], k)
      modifies this
      ensures ok <==>
                && Reads(sel, listing) <= bucketCalls
                && |ToProject(sel, log, scan)| + 1 + |ToRetract(sel, old(rows), log, scan)| <= calls
      ensures ok ==> Bootstrapped(sel, old(rows), rows, log, scan)
      ensures PartlyBootstrapped(sel, old(rows), rows, log, scan)
      ensures bucketCalls < Reads(sel, listing) ==> rows == old(rows)
    {
      hide Learned, Watched, ScanOf, Bootstrapped, PartlyBootstrapped, ToProject, ToRetract, Reads;
      ghost var before := rows;
      var scanned, desired := ScanPassing(log, listing, scan, answers, bucketCalls);
      if !scanned {
        NothingTouched(sel, rows, log, scan);
        return false;
      }
      DesiredKeys(sel, log, scan, desired);
      var projected, left := ProjectAll(desired, calls);
      if !projected || left == 0 {
        CutShort(sel, before, rows, log, scan, desired, {});
        return false;
      }
      var orphans := set k | k in rows && Watched(sel, k) && k !in desired;
      OrphanKeys(sel, before, rows, log, scan, desired, orphans);
      ok := RetractAll(orphans, left - 1);
      CutShort(sel, before, rows, log, scan, desired, orphans);
      if ok {
        RanThrough(sel, before, rows, log, scan, desired, orphans);
      }
    }

    method ProjectAll(desired: map<KvKey, V>, calls: nat) returns (ok: bool, left: nat)
      modifies this
      ensures ok <==> |desired.Keys| <= calls
      ensures ok ==> left == calls - |desired.Keys|
      ensures forall k: KvKey ::
                || Lookup(rows, k) == Lookup(old(rows), k)
                || (k in desired && Lookup(rows, k) == Lookup(desired, k))
      ensures ok ==> forall k: KvKey ::
                Lookup(rows, k) == if k in desired then Lookup(desired, k) else Lookup(old(rows), k)
    {
      left := calls;
      var rest := desired.Keys;
      while rest != {}
        invariant rest <= desired.Keys && left + |desired.Keys| == calls + |rest|
        invariant forall k: KvKey ::
                    Lookup(rows, k) == if k in desired.Keys - rest then Lookup(desired, k) else Lookup(old(rows), k)
      {
        if left == 0 {
          return false, 0;
        }
        left := left - 1;
        var key :| key in rest;
        rows := rows[key := desired[key]];
        rest := rest - {key};
      }
      ok := true;
    }

    method RetractAll(orphans: set<KvKey>, calls: nat) returns (ok: bool)
      modifies this
      ensures ok <==> |orphans| <= calls
      ensures forall k: KvKey :: Lookup(rows, k) == Lookup(old(rows), k) || (k in orphans && Lookup(rows, k) == None)
      ensures ok ==> forall k: KvKey :: Lookup(rows, k) == if k in orphans then None else Lookup(old(rows), k)
    {
      var left: nat := calls;
      var rest := orphans;
      while rest != {}
        invariant rest <= orphans && left + |orphans| == calls + |rest|
        invariant forall k: KvKey ::
                    Lookup(rows, k) == if k in orphans - rest then None else Lookup(old(rows), k)
      {
        if left == 0 {
          return false;
        }
        left := left - 1;
        var key :| key in rest;
        rows := rows - {key};
        rest := rest - {key};
      }
      ok := true;
    }
  }

  /** Once it has run, the bootstrap forgets what the watched part of the copy was, keeps the
      unwatched part, and on a quiet log agrees with a full rescan. */
  lemma QuietBootstrapAgrees<V>(
      sel: Selection<V>, before: map<KvKey, V>, after: map<KvKey, V>, log: seq<Entry<V>>, scan: ScanTimes)
    requires ScanOf(log, scan) && scan.listed == |log|
    requires Bootstrapped(sel, before, after, log, scan)
    ensures Agrees(sel, after, log)
    ensures forall k: KvKey :: !Watched(sel, k) ==> Lookup(after, k) == Lookup(before, k)
  {
    assert log[..|log|] == log;
    forall k: KvKey | Watched(sel, k)
      ensures Lookup(after, k) == View(sel, log, k)
    {
      assert LearnedAt(log, scan, k) == |log|;
    }
  }

  // ----- the gap between the scan and the watch -----

  /** A watched key whose last change the scan came too early for and the watch too late. */
  ghost predicate Missed<V>(sel: Selection<V>, log: seq<Entry<V>>, scan: ScanTimes, watchFrom: nat, key: KvKey)
    requires LearnedAt(log, scan, key) <= |log| && watchFrom <= |log|
  {
    && Watched(sel, key)
    && !Mentions(log[watchFrom..], key)
    && Learned(sel, log, scan, key) != View(sel, log[..watchFrom], key)
  }

  /** The watch delivers the entries from `watchFrom` on. After a bootstrap and those entries
      the copy equals a full rescan exactly when no key was missed in between. */
  lemma AgreesIffNothingMissed<V>(
      sel: Selection<V>, before: map<KvKey, V>, after: map<KvKey, V>,
      log: seq<Entry<V>>, scan: ScanTimes, watchFrom: nat)
    requires ScanOf(log, scan) && watchFrom <= |log|
    requires Bootstrapped(sel, before, after, log, scan)
    ensures Agrees(sel, Follow(sel, after, log[watchFrom..]), log) <==>
            forall k: KvKey :: !Missed(sel, log, scan, watchFrom, k)
  {
    var final := Follow(sel, after, log[watchFrom..]);
    assert log == log[..watchFrom] + log[watchFrom..];
    forall k: KvKey
      ensures Missed(sel, log, scan, watchFrom, k) <==> Watched(sel, k) && Lookup(final, k) != View(sel, log, k)
    {
      if Watched(sel, k) {
        FollowedKey(sel, after, log[..watchFrom], log[watchFrom..], k);
      }
    }
    if Agrees(sel, final, log) {
      forall k: KvKey
        ensures !Missed(sel, log, scan, watchFrom, k)
      {
        assert Watched(sel, k) ==> Lookup(final, k) == View(sel, log, k);
      }
    }
  }

  /** A watch that starts no later than the scan misses nothing. */
  lemma EarlyWatchMissesNothing<V>(
      sel: Selection<V>, before: map<KvKey, V>, after: map<KvKey, V>,
      log: seq<Entry<V>>, scan: ScanTimes, watchFrom: nat)
    requires ScanOf(log, scan) && watchFrom <= scan.listed
    requires Bootstrapped(sel, before, after, log, scan)
    ensures Agrees(sel, Follow(sel, after, log[watchFrom..]), log)
  {
    forall k: KvKey
      ensures !Missed(sel, log, scan, watchFrom, k)
    {
      var r := LearnedAt(log, scan, k);
      if Watched(sel, k) && !Mentions(log[watchFrom..], k) {
        forall i | 0 <= i < |log[watchFrom..r]|
          ensures log[watchFrom..r][i].key != k
        {
          assert log[watchFrom..][i] == log[watchFrom..r][i];
        }
        assert log[..r] == log[..watchFrom] + log[watchFrom..r];
        FollowedKey(sel, after, log[..watchFrom], log[watchFrom..r], k);
      }
    }
    AgreesIffNothingMissed(sel, before, after, log, scan, watchFrom);
  }

  /** The consumer opens its watch after its scan: a key put in between stays missing until
      something writes it again. */
  lemma LateWatchMissesExample(sel: Selection<int>)
    requires sel.prefixes == ["a"] && sel.copyFilter(5)
    ensures var log, scan := [Put("a", 5)], ScanTimes(0, map[]);
            && ScanOf(log, scan)
            && Bootstrapped(sel, map[], map[], log, scan)
            && !Agrees(sel, Follow(sel, map[], log[1..]), log)
  {
    var log: seq<Entry<int>>, scan := [Put("a", 5)], ScanTimes(0, map[]);
    assert log[..0] == [] && log[1..] == [];
    assert Matches(sel.prefixes[0], "a");
    assert Lookup(Follow(sel, map[], log[1..]), "a") != View(sel, log, "a");
  }
}
