/** The publisher: a scan under a prefix, the diff against what is desired, and the writes. */
module KvPublisher {
  import opened KvKeys
  import opened KvReconcile

  function Under<V>(entries: map<KvKey, V>, prefix: KvPrefix): map<KvKey, V> {
    map k | k in entries && Matches(prefix, k) :: entries[k]
  }

  function Outside<V>(entries: map<KvKey, V>, prefix: KvPrefix): map<KvKey, V> {
    map k | k in entries && !Matches(prefix, k) :: entries[k]
  }

  class Bucket<V(==)> {
    var entries: map<KvKey, V>

    constructor (initial: map<KvKey, V>)
      ensures entries == initial
    {
      entries := initial;
    }

    /** `listing` is what the bucket's key listing yields; a key deleted since then reads as
        nothing and is skipped. */
    method ScanEntries(prefix: KvPrefix, listing: seq<KvKey>) returns (found: map<KvKey, V>)
      requires forall k :: k in entries ==> k in listing
      ensures found == Under(entries, prefix)
    {
      found := map[];
      for i := 0 to |listing|
        invariant forall k :: k in found <==> k in entries && Matches(prefix, k) && k in listing[..i]
        invariant forall k :: k in found ==> found[k] == entries[k]
      {
        var key := listing[i];
        assert listing[..i + 1] == listing[..i] + [key];
        if Matches(prefix, key) && key in entries {
          found := found[key := entries[key]];
        }
      }
      assert listing[..|listing|] == listing;
    }

    /** The matching keys of the listing, as often as it lists them, in byte order. */
    method ScanKeys(prefix: KvPrefix, listing: seq<KvKey>) returns (matched: seq<KvKey>)
      requires forall k :: k in entries <==> k in listing
      ensures Sorted(matched)
      ensures forall k :: multiset(matched)[k] == if Matches(prefix, k) then multiset(listing)[k] else 0
      ensures forall k :: k in matched <==> k in Under(entries, prefix)
    {
      matched := [];
      for i := 0 to |listing|
        invariant forall k :: multiset(matched)[k] == if Matches(prefix, k) then multiset(listing[..i])[k] else 0
      {
        assert listing[..i + 1] == listing[..i] + [listing[i]];
        if Matches(prefix, listing[i]) {
          matched := matched + [listing[i]];
        }
      }
      assert listing[..|listing|] == listing;
      SortKeysSorts(matched);
      matched := SortKeys(matched);
      forall k: KvKey
        ensures k in matched <==> k in Under(entries, prefix)
      {
        assert k in matched <==> k in multiset(matched);
        assert k in listing <==> k in multiset(listing);
      }
    }

    method Put(key: KvKey, value: V)
      modifies this
      ensures entries == old(entries)[key := value]
    {
      entries := entries[key := value];
    }

    method Retract(key: KvKey)
      modifies this
      ensures entries == old(entries) - {key}
    {
      entries := entries - {key};
    }

    /** The broker accepts `writes` writes and refuses the next; `done` operations of the diff
        were applied. */
    method Reconcile(prefix: KvPrefix, desired: map<KvKey, V>, listing: seq<KvKey>, writes: nat)
      returns (ok: bool, ghost ops: seq<KvOp<KvKey, V>>, done: nat)
      requires forall k :: k in entries ==> k in listing
      modifies this
      ensures IsDiff(ops, desired, Under(old(entries), prefix))
      ensures done == if writes < |ops| then writes else |ops|
      ensures ok <==> done == |ops|
      ensures entries == ApplyOps(old(entries), ops[..done])
    {
      var observed := ScanEntries(prefix, listing);
      var plan := KvReconcile.Reconcile(desired, observed);
      ops := plan;
      done := 0;
      while done < |plan|
        invariant done <= |plan| && done <= writes
        invariant entries == ApplyOps(old(entries), plan[..done])
        decreases |plan| - done
      {
        if done == writes {
          return false, plan, done;
        }
        match plan[done] {
          case Put(key, value) => Put(key, value);
          case Delete(key) => Retract(key);
        }
        assert plan[..done + 1][..done] == plan[..done];
        done := done + 1;
      }
      assert plan[..|plan|] == plan;
      ok := true;
    }
  }

  /** What one uninterrupted call leaves: everything desired, and of the rest only what lies
      outside the prefix. */
  function Target<V>(entries: map<KvKey, V>, prefix: KvPrefix, desired: map<KvKey, V>): map<KvKey, V> {
    Outside(entries, prefix) + desired
  }

  lemma PublisherReaches<V>(
      ops: seq<KvOp<KvKey, V>>, entries: map<KvKey, V>, prefix: KvPrefix, desired: map<KvKey, V>)
    requires IsDiff(ops, desired, Under(entries, prefix))
    ensures ApplyOps(entries, ops) == Target(entries, prefix, desired)
  {
    var result, target := ApplyOps(entries, ops), Target(entries, prefix, desired);
    forall k: KvKey | k in result || k in target
      ensures Lookup(result, k) == Lookup(target, k)
    {
      PublishedKey(ops, entries, prefix, desired, |ops|, k);
      assert ops[..|ops|] == ops;
    }
    SameLookups(result, target);
  }

  /** One key after any number of the operations: as it was, or as desired; and after all of
      them exactly as in the target. */
  lemma PublishedKey<V>(
      ops: seq<KvOp<KvKey, V>>, entries: map<KvKey, V>, prefix: KvPrefix, desired: map<KvKey, V>, done: nat, k: KvKey)
    requires IsDiff(ops, desired, Under(entries, prefix)) && done <= |ops|
    ensures var now := Lookup(ApplyOps(entries, ops[..done]), k);
            && (now == Lookup(entries, k) || (now == Lookup(desired, k) && (k in desired || Matches(prefix, k))))
            && (done == |ops| ==> now == Lookup(Target(entries, prefix, desired), k))
  {
    var did := ops[..done];
    if Touches(did, k) {
      var i :| 0 <= i < |did| && did[i].key == k;
      AppliedTouched(entries, did, i);
      assert Justified(ops[i], desired, Under(entries, prefix));
    } else {
      AppliedUntouched(entries, did, k);
      if done == |ops| {
        assert did == ops;
        assert !Differs(desired, Under(entries, prefix), k);
      }
    }
  }

  /** Keys outside the prefix stay as they are exactly when every desired key out there is in
      the bucket with its desired value already. */
  lemma OutsideUnchangedIff<V>(
      ops: seq<KvOp<KvKey, V>>, entries: map<KvKey, V>, prefix: KvPrefix, desired: map<KvKey, V>)
    requires IsDiff(ops, desired, Under(entries, prefix))
    ensures Outside(ApplyOps(entries, ops), prefix) == Outside(entries, prefix) <==>
            forall k :: k in desired && !Matches(prefix, k) ==> k in entries && entries[k] == desired[k]
  {
    PublisherReaches(ops, entries, prefix, desired);
    var before, after := Outside(entries, prefix), Outside(Target(entries, prefix, desired), prefix);
    forall k | k in desired && !Matches(prefix, k)
      ensures k in after && after[k] == desired[k] && (k in before ==> before[k] == entries[k])
    {}
    if before == after {
    } else {
      if forall k :: k in desired && !Matches(prefix, k) ==> k in entries && entries[k] == desired[k] {
        SameLookups(before, after);
        assert false;
      }
    }
  }

  /** The publisher does write outside its prefix when told to. */
  lemma WritesOutsideExample()
    ensures var ops := [KvOp.Put("b/1", 7)];
            && IsDiff(ops, map["b/1" := 7], Under(map[], "a/"))
            && Outside(ApplyOps(map[], ops), "a/") != Outside(map[], "a/")
  {
    var ops: seq<KvOp<KvKey, int>> := [KvOp.Put("b/1", 7)];
    var none: map<KvKey, int> := map[];
    assert ops[0].key == "b/1";
    assert "b/1"[0] != "a/"[0];
    assert forall k :: Differs(map["b/1" := 7], Under(none, "a/"), k) ==> k == ops[0].key;
    assert ApplyOps(none, ops[..0]) == none;
    assert ApplyOps(none, ops) == map["b/1" := 7];
    assert "b/1" in Outside(ApplyOps(none, ops), "a/");
  }

  /** A run of the publisher, cut after any number of its operations. */
  ghost predicate Attempt<V(!new)>(
      before: map<KvKey, V>, after: map<KvKey, V>, prefix: KvPrefix, desired: map<KvKey, V>) {
    exists ops: seq<KvOp<KvKey, V>>, done: nat ::
      && done <= |ops| && IsDiff(ops, desired, Under(before, prefix))
      && after == ApplyOps(before, ops[..done])
  }

  lemma AttemptKeepsTarget<V(!new)>(
      before: map<KvKey, V>, after: map<KvKey, V>, prefix: KvPrefix, desired: map<KvKey, V>)
    requires Attempt(before, after, prefix, desired)
    ensures Target(after, prefix, desired) == Target(before, prefix, desired)
  {
    var ops: seq<KvOp<KvKey, V>>, done: nat :|
      && done <= |ops| && IsDiff(ops, desired, Under(before, prefix))
      && after == ApplyOps(before, ops[..done]);
    var a, b := Target(after, prefix, desired), Target(before, prefix, desired);
    forall k: KvKey | k in a || k in b
      ensures Lookup(a, k) == Lookup(b, k)
    {
      PublishedKey(ops, before, prefix, desired, done, k);
      if !Matches(prefix, k) && k !in desired {
        assert Lookup(after, k) == Lookup(before, k);
      }
    }
    SameLookups(a, b);
  }

  /** However many runs were cut short before it, the first complete run reaches the target
      that the first of them was aiming at. */
  lemma {:induction false} RetriesConverge<V(!new)>(
      buckets: seq<map<KvKey, V>>, ops: seq<KvOp<KvKey, V>>, prefix: KvPrefix, desired: map<KvKey, V>)
    requires buckets != []
    requires forall i :: 0 <= i < |buckets| - 1 ==> Attempt(buckets[i], buckets[i + 1], prefix, desired)
    requires IsDiff(ops, desired, Under(buckets[|buckets| - 1], prefix))
    ensures ApplyOps(buckets[|buckets| - 1], ops) == Target(buckets[0], prefix, desired)
    decreases |buckets|
  {
    if |buckets| == 1 {
      PublisherReaches(ops, buckets[0], prefix, desired);
    } else {
      assert Attempt(buckets[0], buckets[0 + 1], prefix, desired);
      forall i | 0 <= i < |buckets[1..]| - 1
        ensures Attempt(buckets[1..][i], buckets[1..][i + 1], prefix, desired)
      {
        assert Attempt(buckets[i + 1], buckets[i + 1 + 1], prefix, desired);
      }
      RetriesConverge(buckets[1..], ops, prefix, desired);
      AttemptKeepsTarget(buckets[0], buckets[1], prefix, desired);
    }
  }
}
