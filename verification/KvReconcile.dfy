/** The desired/observed diff: what it is, that it works in any order and after any cut. */
module KvReconcile {
  import opened Wrappers
  import opened KvKeys

  datatype KvOp<K, V> = Put(key: K, value: V) | Delete(key: K)

  // ----- what a diff is -----

  predicate Differs<K, V(==)>(desired: map<K, V>, observed: map<K, V>, key: K) {
    Lookup(desired, key) != Lookup(observed, key)
  }

  /** The operation sets its key, which differs, to the desired value. */
  predicate Justified<K, V(==)>(op: KvOp<K, V>, desired: map<K, V>, observed: map<K, V>) {
    && Differs(desired, observed, op.key)
    && Lookup(desired, op.key) == Written(op)
  }

  function Written<K, V>(op: KvOp<K, V>): Option<V> {
    if op.Put? then Some(op.value) else None
  }

  ghost predicate Touches<K, V>(ops: seq<KvOp<K, V>>, key: K) {
    exists i :: 0 <= i < |ops| && ops[i].key == key
  }

  ghost predicate OncePerKey<K, V>(ops: seq<KvOp<K, V>>) {
    forall i, j :: 0 <= i < j < |ops| ==> ops[i].key != ops[j].key
  }

  /** Each differing key exactly once, with the desired value, and no other key. */
  ghost predicate IsDiff<K(!new), V>(ops: seq<KvOp<K, V>>, desired: map<K, V>, observed: map<K, V>) {
    && OncePerKey(ops)
    && (forall i :: 0 <= i < |ops| ==> Justified(ops[i], desired, observed))
    && (forall k :: Differs(desired, observed, k) ==> Touches(ops, k))
  }

  ghost predicate PutsFirst<K, V>(ops: seq<KvOp<K, V>>) {
    forall i, j :: 0 <= i < j < |ops| && ops[i].Delete? ==> ops[j].Delete?
  }

  lemma TouchesSnoc<K, V>(ops: seq<KvOp<K, V>>, op: KvOp<K, V>, key: K)
    ensures Touches(ops + [op], key) <==> Touches(ops, key) || op.key == key
  {
    var all := ops + [op];
    if Touches(ops, key) {
      var i :| 0 <= i < |ops| && ops[i].key == key;
      assert all[i].key == key;
    }
    if op.key == key {
      assert all[|ops|].key == key;
    }
    if Touches(all, key) && op.key != key {
      var i :| 0 <= i < |all| && all[i].key == key;
      assert i < |ops| && ops[i].key == key;
    }
  }

  /** The maps are walked in any order of their keys; a walk in key order is one. */
  method Reconcile<K(==, !new), V(==)>(desired: map<K, V>, observed: map<K, V>) returns (ops: seq<KvOp<K, V>>)
    ensures IsDiff(ops, desired, observed)
    ensures PutsFirst(ops)
  {
    ops := [];
    var rest := desired.Keys;
    while rest != {}
      invariant rest <= desired.Keys
      invariant OncePerKey(ops)
      invariant forall i :: 0 <= i < |ops| ==> ops[i].Put? && Justified(ops[i], desired, observed)
      invariant forall k :: Touches(ops, k) <==> k in desired.Keys - rest && Differs(desired, observed, k)
    {
      var key :| key in rest;
      if !(key in observed && observed[key] == desired[key]) {
        var op := Put(key, desired[key]);
        forall k
          ensures Touches(ops + [op], k) <==> Touches(ops, k) || k == key
        {
          TouchesSnoc(ops, op, k);
        }
        assert !Touches(ops, key);
        ops := ops + [op];
      }
      rest := rest - {key};
    }
    rest := observed.Keys;
    while rest != {}
      invariant rest <= observed.Keys
      invariant OncePerKey(ops) && PutsFirst(ops)
      invariant forall i :: 0 <= i < |ops| ==> Justified(ops[i], desired, observed)
      invariant forall k :: Touches(ops, k) <==>
                  (k in desired.Keys || k in observed.Keys - rest) && Differs(desired, observed, k)
    {
      var key :| key in rest;
      if key !in desired {
        var op := Delete(key);
        forall k
          ensures Touches(ops + [op], k) <==> Touches(ops, k) || k == key
        {
          TouchesSnoc(ops, op, k);
        }
        assert !Touches(ops, key);
        ops := ops + [op];
      }
      rest := rest - {key};
    }
  }

  // ----- applying one -----

  function ApplyOp<K, V>(entries: map<K, V>, op: KvOp<K, V>): map<K, V> {
    if op.Put? then entries[op.key := op.value] else entries - {op.key}
  }

  function ApplyOps<K, V>(entries: map<K, V>, ops: seq<KvOp<K, V>>): map<K, V>
    decreases |ops|
  {
    if ops == [] then entries else ApplyOp(ApplyOps(entries, ops[..|ops| - 1]), ops[|ops| - 1])
  }

  lemma {:induction false} AppliedUntouched<K, V>(entries: map<K, V>, ops: seq<KvOp<K, V>>, key: K)
    requires !Touches(ops, key)
    ensures Lookup(ApplyOps(entries, ops), key) == Lookup(entries, key)
    decreases |ops|
  {
    if ops != [] {
      var front, last := ops[..|ops| - 1], ops[|ops| - 1];
      assert ops == front + [last];
      TouchesSnoc(front, last, key);
      AppliedUntouched(entries, front, key);
    }
  }

  lemma {:induction false} AppliedTouched<K, V>(entries: map<K, V>, ops: seq<KvOp<K, V>>, i: nat)
    requires OncePerKey(ops) && i < |ops|
    ensures Lookup(ApplyOps(entries, ops), ops[i].key) == Written(ops[i])
    decreases |ops|
  {
    var front, last := ops[..|ops| - 1], ops[|ops| - 1];
    if i < |front| {
      AppliedTouched(entries, front, i);
    }
  }

  /** The diff, applied to what it was computed from, gives what was desired. */
  lemma DiffReaches<K(!new), V>(ops: seq<KvOp<K, V>>, desired: map<K, V>, observed: map<K, V>)
    requires IsDiff(ops, desired, observed)
    ensures ApplyOps(observed, ops) == desired
  {
    var result := ApplyOps(observed, ops);
    forall k | k in result || k in desired
      ensures Lookup(result, k) == Lookup(desired, k)
    {
      if Touches(ops, k) {
        var i :| 0 <= i < |ops| && ops[i].key == k;
        AppliedTouched(observed, ops, i);
        assert Justified(ops[i], desired, observed);
      } else {
        AppliedUntouched(observed, ops, k);
      }
    }
    SameLookups(result, desired);
  }

  // ----- any order -----

  lemma {:induction false} OnceIffCounts<K, V>(ops: seq<KvOp<K, V>>, desired: map<K, V>, observed: map<K, V>)
    requires forall i :: 0 <= i < |ops| ==> Justified(ops[i], desired, observed)
    ensures OncePerKey(ops) <==> forall op :: op in ops ==> multiset(ops)[op] == 1
  {
    if OncePerKey(ops) {
      forall op | op in ops
        ensures multiset(ops)[op] == 1
      {
        CountOfOnce(ops, op);
      }
    }
    if !OncePerKey(ops) {
      var i, j :| 0 <= i < j < |ops| && ops[i].key == ops[j].key;
      assert Justified(ops[i], desired, observed) && Justified(ops[j], desired, observed);
      assert ops[i] == ops[j];
      assert ops == ops[..j] + ([ops[j]] + ops[j + 1..]);
      assert ops[j] in ops[..j] by { assert ops[..j][i] == ops[j]; }
      assert multiset(ops)[ops[j]] >= 2;
    }
  }

  lemma {:induction false} CountOfOnce<K, V>(ops: seq<KvOp<K, V>>, op: KvOp<K, V>)
    requires OncePerKey(ops) && op in ops
    ensures multiset(ops)[op] == 1
    decreases |ops|
  {
    var front, last := ops[..|ops| - 1], ops[|ops| - 1];
    assert ops == front + [last];
    if last == op {
      assert op !in front;
    } else {
      assert op in front;
      CountOfOnce(front, op);
    }
  }

  /** A reordered diff is still the diff. */
  lemma DiffInAnyOrder<K(!new), V>(
      ops: seq<KvOp<K, V>>, other: seq<KvOp<K, V>>, desired: map<K, V>, observed: map<K, V>)
    requires IsDiff(ops, desired, observed) && multiset(other) == multiset(ops)
    ensures IsDiff(other, desired, observed)
    ensures ApplyOps(observed, other) == desired
  {
    forall op
      ensures op in other <==> op in ops
    {
      assert op in other <==> op in multiset(other);
      assert op in ops <==> op in multiset(ops);
    }
    forall i | 0 <= i < |other|
      ensures Justified(other[i], desired, observed)
    {
      assert other[i] in ops;
    }
    OnceIffCounts(ops, desired, observed);
    OnceIffCounts(other, desired, observed);
    forall k | Differs(desired, observed, k)
      ensures Touches(other, k)
    {
      assert Touches(ops, k);
      var i :| 0 <= i < |ops| && ops[i].key == k;
      assert ops[i] in other;
    }
    DiffReaches(other, desired, observed);
  }

  /** There is one diff, up to order. */
  lemma DiffIsUnique<K(!new), V>(
      a: seq<KvOp<K, V>>, b: seq<KvOp<K, V>>, desired: map<K, V>, observed: map<K, V>)
    requires IsDiff(a, desired, observed) && IsDiff(b, desired, observed)
    ensures multiset(a) == multiset(b)
  {
    OnceIffCounts(a, desired, observed);
    OnceIffCounts(b, desired, observed);
    forall op
      ensures multiset(a)[op] == multiset(b)[op]
    {
      SameMembers(a, b, desired, observed, op);
      SameMembers(b, a, desired, observed, op);
      assert op in a <==> op in multiset(a);
      assert op in b <==> op in multiset(b);
    }
  }

  lemma SameMembers<K(!new), V>(
      a: seq<KvOp<K, V>>, b: seq<KvOp<K, V>>, desired: map<K, V>, observed: map<K, V>, op: KvOp<K, V>)
    requires IsDiff(a, desired, observed) && IsDiff(b, desired, observed)
    ensures op in a ==> op in b
  {}

  // ----- interruption -----

  lemma TouchesSplit<K, V>(ops: seq<KvOp<K, V>>, cut: nat, key: K)
    requires cut <= |ops| && Touches(ops, key)
    ensures Touches(ops[..cut], key) || Touches(ops[cut..], key)
  {}

  /** Cut anywhere, what is left of the diff is the diff of what is there now. */
  lemma RestIsDiff<K(!new), V>(ops: seq<KvOp<K, V>>, desired: map<K, V>, observed: map<K, V>, cut: nat)
    requires IsDiff(ops, desired, observed) && cut <= |ops|
    ensures IsDiff(ops[cut..], desired, ApplyOps(observed, ops[..cut]))
  {
    var done, rest := ops[..cut], ops[cut..];
    var now := ApplyOps(observed, done);
    forall i | 0 <= i < |rest|
      ensures Justified(rest[i], desired, now)
    {
      assert rest[i] == ops[cut + i] && Justified(ops[cut + i], desired, observed);
      assert !Touches(done, rest[i].key);
      AppliedUntouched(observed, done, rest[i].key);
    }
    forall k | Differs(desired, now, k)
      ensures Touches(rest, k)
    {
      if Touches(done, k) {
        var i :| 0 <= i < |done| && done[i].key == k;
        AppliedTouched(observed, done, i);
        assert false;
      }
      AppliedUntouched(observed, done, k);
      assert Touches(ops, k);
      TouchesSplit(ops, cut, k);
    }
  }

  /** After an interruption a fresh run converges, and touches exactly the keys that the
      interrupted one had left. */
  lemma RerunConverges<K(!new), V>(
      ops: seq<KvOp<K, V>>, rerun: seq<KvOp<K, V>>, desired: map<K, V>, observed: map<K, V>, cut: nat)
    requires IsDiff(ops, desired, observed) && cut <= |ops|
    requires IsDiff(rerun, desired, ApplyOps(observed, ops[..cut]))
    ensures ApplyOps(ApplyOps(observed, ops[..cut]), rerun) == desired
    ensures multiset(rerun) == multiset(ops[cut..])
  {
    RestIsDiff(ops, desired, observed, cut);
    DiffReaches(rerun, desired, ApplyOps(observed, ops[..cut]));
    DiffIsUnique(rerun, ops[cut..], desired, ApplyOps(observed, ops[..cut]));
  }
}
