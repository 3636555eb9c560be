/** JavaScript plain objects used as string-keyed maps: the keys in their
    enumeration order together with the value stored under each key. */
module Records {
  import opened Wrappers
  import opened Strings

  predicate Distinct(s: seq<string>) {
    forall i, j :: 0 <= i < j < |s| ==> s[i] != s[j]
  }

  datatype Record<T> = Record(keys: seq<string>, values: map<string, T>) {

    /** Each key is listed once, and exactly the stored keys are listed. */
    ghost predicate Valid() {
      Distinct(keys) && forall k :: k in values <==> k in keys
    }
  }

  /** The keys are in ascending code-unit order. */
  ghost predicate KeysSorted<T>(r: Record<T>) {
    forall i, j :: 0 <= i < j < |r.keys| ==> StringLe(r.keys[i], r.keys[j])
  }

  function Empty<T>(): (r: Record<T>)
    ensures r.Valid() && |r.keys| == 0
  {
    Record([], map[])
  }

  /** `obj[k] = v`: a new key is enumerated last; an existing key keeps its place
      and only its value changes. */
  function Put<T>(r: Record<T>, k: string, v: T): (r': Record<T>)
    requires r.Valid()
    ensures r'.Valid()
    ensures r'.values == r.values[k := v]
    ensures k in r.values ==> r'.keys == r.keys
    ensures k !in r.values ==> r'.keys == r.keys + [k]
  {
    if k in r.values then Record(r.keys, r.values[k := v])
    else Record(r.keys + [k], r.values[k := v])
  }

  // ---------------------------------------------------------------------------
  // A loop of assignments `obj[key] = value`, one per computed entry

  /** Each of the first `n` entries was computed. */
  predicate AllSucceed<V, E>(entries: seq<Result<(string, V), E>>, n: nat)
    requires n <= |entries|
  {
    forall i :: 0 <= i < n ==> entries[i].Success?
  }

  /** `e` is the error of the first of the first `n` entries that failed. */
  ghost predicate FirstFailure<V, E>(entries: seq<Result<(string, V), E>>, n: nat, e: E)
    requires n <= |entries|
  {
    exists i :: 0 <= i < n && entries[i] == Failure(e) && AllSucceed(entries, i)
  }

  /** One of the first `n` entries has key `k`. */
  ghost predicate KeyListed<V, E>(entries: seq<Result<(string, V), E>>, n: nat, k: string)
    requires n <= |entries| && AllSucceed(entries, n)
  {
    exists i :: 0 <= i < n && entries[i].value.0 == k
  }

  /** Entry `i` is the last of the first `n` with its key. */
  ghost predicate LastOfKey<V, E>(entries: seq<Result<(string, V), E>>, n: nat, i: nat)
    requires i < n <= |entries| && AllSucceed(entries, n)
  {
    forall j :: i < j < n ==> entries[j].value.0 != entries[i].value.0
  }

  /** No two of the first `n` entries share a key. */
  ghost predicate DistinctKeys<V, E>(entries: seq<Result<(string, V), E>>, n: nat)
    requires n <= |entries| && AllSucceed(entries, n)
  {
    forall i, j :: 0 <= i < j < n ==> entries[i].value.0 != entries[j].value.0
  }

  /** The first `n` entries assigned in order into an empty object; the first
      entry that failed aborts the loop with its error. */
  function AssignAll<V, E>(entries: seq<Result<(string, V), E>>, n: nat): (r: Result<Record<V>, E>)
    requires n <= |entries|
    ensures r.Success? <==> AllSucceed(entries, n)
    ensures r.Failure? ==> FirstFailure(entries, n, r.error)
    ensures r.Success? ==> r.value.Valid()
    decreases n
  {
    if n == 0 then Success(Empty())
    else
      var acc :- AssignAll(entries, n - 1);
      var entry :- entries[n - 1];
      Success(Put(acc, entry.0, entry.1))
  }

  /** The object holds exactly the keys of the entries. */
  lemma {:induction false} AssignAllKeys<V, E>(entries: seq<Result<(string, V), E>>, n: nat)
    requires n <= |entries| && AllSucceed(entries, n)
    ensures forall k :: k in AssignAll(entries, n).value.values <==> KeyListed(entries, n, k)
    ensures forall i :: 0 <= i < n ==> entries[i].value.0 in AssignAll(entries, n).value.values
  {
    if n > 0 {
      AssignAllKeys(entries, n - 1);
      var acc := AssignAll(entries, n - 1).value;
      var r := AssignAll(entries, n).value;
      var entry := entries[n - 1].value;
      assert r.values == acc.values[entry.0 := entry.1];
      forall k ensures k in r.values <==> KeyListed(entries, n, k) {
        if k == entry.0 {
          assert entries[n - 1].value.0 == k;
        } else if KeyListed(entries, n, k) {
          var i :| 0 <= i < n && entries[i].value.0 == k;
          assert KeyListed(entries, n - 1, k);
        }
      }
    }
  }

  /** The value under each key is the one of the last entry with that key. */
  lemma {:induction false} AssignAllLastWins<V, E>(entries: seq<Result<(string, V), E>>, n: nat)
    requires n <= |entries| && AllSucceed(entries, n)
    ensures forall i :: 0 <= i < n && LastOfKey(entries, n, i) ==>
      entries[i].value.0 in AssignAll(entries, n).value.values &&
      AssignAll(entries, n).value.values[entries[i].value.0] == entries[i].value.1
  {
    if n > 0 {
      AssignAllLastWins(entries, n - 1);
      var acc := AssignAll(entries, n - 1).value;
      var r := AssignAll(entries, n).value;
      var entry := entries[n - 1].value;
      assert r.values == acc.values[entry.0 := entry.1];
      forall i | 0 <= i < n && LastOfKey(entries, n, i)
        ensures entries[i].value.0 in r.values && r.values[entries[i].value.0] == entries[i].value.1
      {
        if i < n - 1 {
          assert LastOfKey(entries, n - 1, i);
          assert entries[i].value.0 != entries[n - 1].value.0;
        }
      }
    }
  }

  /** Entries with pairwise different keys give one object key each. */
  lemma {:induction false} AssignAllDistinctSize<V, E>(entries: seq<Result<(string, V), E>>, n: nat)
    requires n <= |entries| && AllSucceed(entries, n) && DistinctKeys(entries, n)
    ensures |AssignAll(entries, n).value.keys| == n
  {
    if n > 0 {
      assert DistinctKeys(entries, n - 1);
      AssignAllDistinctSize(entries, n - 1);
      AssignAllKeys(entries, n - 1);
      var k := entries[n - 1].value.0;
      assert !KeyListed(entries, n - 1, k) by {
        forall i | 0 <= i < n - 1 ensures entries[i].value.0 != k {
          assert entries[i].value.0 != entries[n - 1].value.0;
        }
      }
    }
  }

  /** A prefix one longer is the shorter prefix and one more element. */
  lemma PrefixStep<T>(s: seq<T>, n: nat)
    requires 0 < n <= |s|
    ensures s[..n] == s[..n - 1] + [s[n - 1]]
  {
  }

  lemma {:induction false} DistinctCountsOnce(s: seq<string>, x: string)
    requires Distinct(s)
    ensures multiset(s)[x] <= 1
    decreases |s|
  {
    if |s| > 0 {
      assert s == [s[0]] + s[1..];
      DistinctCountsOnce(s[1..], x);
      if s[0] == x {
        assert x !in s[1..];
      }
    }
  }

  /** A rearrangement of a sequence without repeats has no repeats. */
  lemma PermutationKeepsDistinct(a: seq<string>, b: seq<string>)
    requires Distinct(a) && multiset(a) == multiset(b)
    ensures Distinct(b)
  {
    forall i, j | 0 <= i < j < |b| ensures b[i] != b[j] {
      if b[i] == b[j] {
        var x := b[i];
        assert b == b[..j] + [b[j]] + b[j + 1..];
        assert x in b[..j];
        assert multiset(b)[x] >= 2;
        DistinctCountsOnce(a, x);
        assert false;
      }
    }
  }
}
