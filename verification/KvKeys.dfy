/** Keys of the published-language bucket and the prefixes that select them. */
module KvKeys {
  import opened Wrappers

  datatype KvKeyError = EmptyKey | InvalidChar(text: string)

  predicate ValidChar(c: char) {
    'a' <= c <= 'z' || 'A' <= c <= 'Z' || '0' <= c <= '9' || c == '-' || c == '_' || c == '.' || c == '/'
  }

  predicate IsKvKey(s: string) {
    s != [] && forall i :: 0 <= i < |s| ==> ValidChar(s[i])
  }

  type KvKey = s: string | IsKvKey(s) witness "a"

  type KvPrefix = s: string | IsKvKey(s) witness "a"

  function NewKvKey(s: string): (r: Result<KvKey, KvKeyError>)
    ensures r.Ok? <==> IsKvKey(s)
    ensures r.Ok? ==> r.value == s
    ensures r == Err(EmptyKey) <==> s == ""
    ensures r.Err? ==> r.error in {EmptyKey, InvalidChar(s)}
  {
    if s == [] then Err(EmptyKey)
    else if exists i :: 0 <= i < |s| && !ValidChar(s[i]) then Err(InvalidChar(s))
    else Ok(s)
  }

  predicate Matches(prefix: KvPrefix, key: KvKey) {
    prefix <= key
  }

  /** What a bucket or a projection answers for one key. */
  function Lookup<K, V>(m: map<K, V>, key: K): Option<V> {
    if key in m then Some(m[key]) else None
  }

  lemma SameLookups<K, V>(a: map<K, V>, b: map<K, V>)
    requires forall k :: k in a || k in b ==> Lookup(a, k) == Lookup(b, k)
    ensures a == b
  {}

  // ----- the order of keys -----

  /** Byte order, as strings are compared. */
  predicate Leq(a: string, b: string) {
    a == "" || (b != "" && (a[0] < b[0] || (a[0] == b[0] && Leq(a[1..], b[1..]))))
  }

  lemma {:induction false} LeqTotal(a: string, b: string)
    ensures Leq(a, b) || Leq(b, a)
    ensures Leq(a, b) && Leq(b, a) ==> a == b
  {
    if a != "" && b != "" {
      LeqTotal(a[1..], b[1..]);
      assert a == [a[0]] + a[1..] && b == [b[0]] + b[1..];
    }
  }

  lemma {:induction false} LeqTransitive(a: string, b: string, c: string)
    requires Leq(a, b) && Leq(b, c)
    ensures Leq(a, c)
  {
    if a != "" && a[0] == b[0] == c[0] {
      LeqTransitive(a[1..], b[1..], c[1..]);
    }
  }

  ghost predicate Sorted(keys: seq<KvKey>) {
    forall i, j :: 0 <= i < j < |keys| ==> Leq(keys[i], keys[j])
  }

  function Inserted(keys: seq<KvKey>, key: KvKey): seq<KvKey> {
    if keys == [] || Leq(key, keys[0]) then [key] + keys else [keys[0]] + Inserted(keys[1..], key)
  }

  function SortKeys(keys: seq<KvKey>): seq<KvKey> {
    if keys == [] then [] else Inserted(SortKeys(keys[1..]), keys[0])
  }

  lemma {:induction false} InsertedSorts(keys: seq<KvKey>, key: KvKey)
    requires Sorted(keys)
    ensures Sorted(Inserted(keys, key))
    ensures multiset(Inserted(keys, key)) == multiset(keys) + multiset{key}
  {
    hide Leq;
    if keys == [] {
    } else if Leq(key, keys[0]) {
      forall j | 0 <= j < |keys|
        ensures Leq(key, keys[j])
      {
        if j > 0 {
          LeqTransitive(key, keys[0], keys[j]);
        }
      }
    } else {
      LeqTotal(key, keys[0]);
      var rest := Inserted(keys[1..], key);
      InsertedSorts(keys[1..], key);
      assert keys == [keys[0]] + keys[1..];
      forall j | 0 <= j < |rest|
        ensures Leq(keys[0], rest[j])
      {
        assert rest[j] in multiset(rest);
        assert rest[j] == key || rest[j] in keys[1..];
      }
    }
  }

  lemma {:induction false} SortKeysSorts(keys: seq<KvKey>)
    ensures Sorted(SortKeys(keys)) && multiset(SortKeys(keys)) == multiset(keys)
  {
    if keys != [] {
      SortKeysSorts(keys[1..]);
      InsertedSorts(SortKeys(keys[1..]), keys[0]);
      assert keys == [keys[0]] + keys[1..];
    }
  }
}
