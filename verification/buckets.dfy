/**
 * Multi-maps as the manager keeps them: a map from a key to an array of
 * values ("buckets"), where adding creates the bucket on demand and
 * removing drops a bucket that became empty.
 */
module Buckets {
  import opened Util

  /** The bucket under `k`; empty when there is none. */
  function Bucket<K, V>(m: map<K, seq<V>>, k: K): seq<V>
  {
    if k in m then m[k] else []
  }

  /** No key maps to an empty bucket. */
  predicate NoEmptyBucket<K, V>(m: map<K, seq<V>>)
  {
    forall k :: k in m ==> m[k] != []
  }

  /** `FindOrAdd(k).AddUnique(x)`. */
  function AddToBucket<K, V(==)>(m: map<K, seq<V>>, k: K, x: V): (r: map<K, seq<V>>)
    ensures r.Keys == m.Keys + {k}
    ensures r[k] == AddUnique(Bucket(m, k), x)
    ensures forall k' :: k' in m && k' != k ==> r[k'] == m[k']
    ensures NoEmptyBucket(m) ==> NoEmptyBucket(r)
  {
    m[k := AddUnique(Bucket(m, k), x)]
  }

  /** `FindOrAdd(k).Add(x)`: appends even when `x` is already there. */
  function AppendToBucket<K, V>(m: map<K, seq<V>>, k: K, x: V): (r: map<K, seq<V>>)
    ensures r.Keys == m.Keys + {k}
    ensures r[k] == Bucket(m, k) + [x]
    ensures forall k' :: k' in m && k' != k ==> r[k'] == m[k']
    ensures NoEmptyBucket(m) ==> NoEmptyBucket(r)
  {
    m[k := Bucket(m, k) + [x]]
  }

  /** `m[k].Remove(x)` when the bucket exists, then the bucket is dropped if it became empty. */
  function RemoveFromBucket<K, V(==)>(m: map<K, seq<V>>, k: K, x: V): (r: map<K, seq<V>>)
    ensures k !in m ==> r == m
    ensures Bucket(r, k) == RemoveAll(Bucket(m, k), x)
    ensures k in r ==> r[k] != []
    ensures forall k' :: k' in r && k' != k ==> k' in m
    ensures forall k' :: k' in m && k' != k ==> k' in r
    ensures forall k' :: k' in m && k' != k ==> r[k'] == m[k']
    ensures NoEmptyBucket(m) ==> NoEmptyBucket(r)
  {
    if k !in m then m
    else
      var b := RemoveAll(m[k], x);
      if b == [] then m - {k} else m[k := b]
  }

  /** `AddToBucket` for each key in turn. */
  function AddToBuckets<K, V(==)>(m: map<K, seq<V>>, keys: seq<K>, x: V): map<K, seq<V>>
  {
    if keys == [] then m
    else AddToBucket(AddToBuckets(m, keys[..|keys| - 1], x), keys[|keys| - 1], x)
  }

  /** `RemoveFromBucket` for each key in turn. */
  function RemoveFromBuckets<K, V(==)>(m: map<K, seq<V>>, keys: seq<K>, x: V): map<K, seq<V>>
  {
    if keys == [] then m
    else RemoveFromBucket(RemoveFromBuckets(m, keys[..|keys| - 1], x), keys[|keys| - 1], x)
  }

  /** Filing under one more key of `keys` is one more `AddToBucket`. */
  lemma AddToBucketsStep<K, V>(m: map<K, seq<V>>, keys: seq<K>, i: nat, x: V)
    requires i < |keys|
    ensures AddToBuckets(m, keys[..i + 1], x) == AddToBucket(AddToBuckets(m, keys[..i], x), keys[i], x)
  {
    assert keys[..i + 1][..i] == keys[..i];
  }

  /** Taking out under one more key of `keys` is one more `RemoveFromBucket`. */
  lemma RemoveFromBucketsStep<K, V>(m: map<K, seq<V>>, keys: seq<K>, i: nat, x: V)
    requires i < |keys|
    ensures RemoveFromBuckets(m, keys[..i + 1], x) == RemoveFromBucket(RemoveFromBuckets(m, keys[..i], x), keys[i], x)
  {
    assert keys[..i + 1][..i] == keys[..i];
  }

  /**
   * After adding `x` under every key of `keys`, each of those buckets is the
   * old one with `x` added once; every other bucket is as it was.
   */
  lemma {:induction false} AddToBucketsAt<K, V>(m: map<K, seq<V>>, keys: seq<K>, x: V, k: K)
    ensures var r := AddToBuckets(m, keys, x);
      (k in keys ==> k in r && r[k] == AddUnique(Bucket(m, k), x)) &&
      (k !in keys ==> (k in r <==> k in m) && Bucket(r, k) == Bucket(m, k))
  {
    if keys != [] {
      var front := keys[..|keys| - 1];
      AddToBucketsAt(m, front, x, k);
      if k in keys && k != keys[|keys| - 1] {
        var i :| 0 <= i < |keys| && keys[i] == k;
        assert front[i] == k;
      }
    }
  }

  /** Adding under several keys keeps every bucket non-empty. */
  lemma {:induction false} AddToBucketsNoEmpty<K, V>(m: map<K, seq<V>>, keys: seq<K>, x: V)
    requires NoEmptyBucket(m)
    ensures NoEmptyBucket(AddToBuckets(m, keys, x))
  {
    if keys != [] {
      AddToBucketsNoEmpty(m, keys[..|keys| - 1], x);
    }
  }

  /**
   * After removing `x` under every key of `keys`, each of those buckets is
   * the old one without `x` (and absent when that is empty); every other
   * bucket is as it was.
   */
  lemma {:induction false} RemoveFromBucketsAt<K, V>(m: map<K, seq<V>>, keys: seq<K>, x: V, k: K)
    ensures var r := RemoveFromBuckets(m, keys, x);
      (k in keys ==> Bucket(r, k) == RemoveAll(Bucket(m, k), x) && (k in r ==> r[k] != [])) &&
      (k !in keys ==> (k in r <==> k in m) && Bucket(r, k) == Bucket(m, k))
  {
    if keys != [] {
      var front := keys[..|keys| - 1];
      var last := keys[|keys| - 1];
      RemoveFromBucketsAt(m, front, x, k);
      if k in keys && k != last {
        var i :| 0 <= i < |keys| && keys[i] == k;
        assert front[i] == k;
      }
      if k == last && k in front {
        RemoveAllTwice(Bucket(m, last), x);
      }
    }
  }

  /** Removing under several keys keeps every bucket non-empty. */
  lemma {:induction false} RemoveFromBucketsNoEmpty<K, V>(m: map<K, seq<V>>, keys: seq<K>, x: V)
    requires NoEmptyBucket(m)
    ensures NoEmptyBucket(RemoveFromBuckets(m, keys, x))
  {
    if keys != [] {
      RemoveFromBucketsNoEmpty(m, keys[..|keys| - 1], x);
    }
  }

  lemma RemoveAllTwice<V>(s: seq<V>, x: V)
    ensures RemoveAll(RemoveAll(s, x), x) == RemoveAll(s, x)
  {
  }

  /** Removing a value just appended to a sequence that lacked it gives the sequence back. */
  lemma {:induction false} RemoveAllAppended<V>(s: seq<V>, x: V)
    requires x !in s
    ensures RemoveAll(s + [x], x) == s
  {
    if s == [] {
      assert [] + [x] == [x];
      assert RemoveAll([x], x) == RemoveAll([x][1..], x);
    } else {
      assert (s + [x])[1..] == s[1..] + [x];
      RemoveAllAppended(s[1..], x);
    }
  }

  /**
   * Adding a value that was in no bucket and then removing it again, under
   * the same keys, restores the multi-map exactly.
   */
  lemma AddThenRemoveBuckets<K, V>(m: map<K, seq<V>>, keys: seq<K>, x: V)
    requires NoEmptyBucket(m)
    requires forall k :: k in keys ==> x !in Bucket(m, k)
    ensures RemoveFromBuckets(AddToBuckets(m, keys, x), keys, x) == m
  {
    var a := AddToBuckets(m, keys, x);
    var r := RemoveFromBuckets(a, keys, x);
    forall k | k in r
      ensures k in m && r[k] == m[k]
    {
      RoundTripAt(m, keys, x, k);
    }
    forall k | k in m
      ensures k in r
    {
      RoundTripAt(m, keys, x, k);
    }
    assert r.Keys == m.Keys;
  }

  lemma RoundTripAt<K, V>(m: map<K, seq<V>>, keys: seq<K>, x: V, k: K)
    requires NoEmptyBucket(m)
    requires forall k :: k in keys ==> x !in Bucket(m, k)
    requires k in RemoveFromBuckets(AddToBuckets(m, keys, x), keys, x) || k in m
    ensures var r := RemoveFromBuckets(AddToBuckets(m, keys, x), keys, x);
      k in r && k in m && r[k] == m[k]
  {
    var a := AddToBuckets(m, keys, x);
    AddToBucketsAt(m, keys, x, k);
    RemoveFromBucketsAt(a, keys, x, k);
    if k in keys {
      RemoveAllAppended(Bucket(m, k), x);
    }
  }

  /** The single-key form of the round trip. */
  lemma AddThenRemoveBucket<K, V>(m: map<K, seq<V>>, k: K, x: V)
    requires NoEmptyBucket(m)
    requires x !in Bucket(m, k)
    ensures RemoveFromBucket(AddToBucket(m, k, x), k, x) == m
  {
    RemoveAllAppended(Bucket(m, k), x);
    var r := RemoveFromBucket(AddToBucket(m, k, x), k, x);
    assert Bucket(r, k) == Bucket(m, k);
    assert forall k' :: k' in r <==> k' in m;
  }

  /** The elements of `s` that are not in `gone`, in order. */
  function Without<V>(s: seq<V>, gone: set<V>): (r: seq<V>)
    ensures forall i :: 0 <= i < |r| ==> r[i] in s && r[i] !in gone
    ensures forall i :: 0 <= i < |s| && s[i] !in gone ==> s[i] in r
    ensures |r| <= |s|
  {
    if s == [] then [] else (if s[0] in gone then [] else [s[0]]) + Without(s[1..], gone)
  }

  /** Every bucket with the values of `gone` taken out; buckets left empty disappear. */
  function WithoutAll<K(!new), V>(m: map<K, seq<V>>, gone: set<V>): (r: map<K, seq<V>>)
    ensures NoEmptyBucket(r)
    ensures forall k :: k in r ==> k in m && r[k] == Without(m[k], gone)
    ensures forall k :: k in m && Without(m[k], gone) != [] ==> k in r
  {
    map k | k in m && Without(m[k], gone) != [] :: Without(m[k], gone)
  }

  /** `RemoveAll` is `Without` a single value. */
  lemma {:induction false} RemoveAllIsWithout<V>(s: seq<V>, x: V)
    ensures RemoveAll(s, x) == Without(s, {x})
  {
    if s != [] {
      RemoveAllIsWithout(s[1..], x);
    }
  }

  /** Taking values out in two steps is taking their union out. */
  lemma {:induction false} WithoutTwice<V>(s: seq<V>, a: set<V>, b: set<V>)
    ensures Without(Without(s, a), b) == Without(s, a + b)
  {
    if s != [] {
      WithoutTwice(s[1..], a, b);
      var t := Without(s[1..], a);
      if s[0] in a {
        assert Without(s, a) == t;
        assert Without(s, a + b) == Without(s[1..], a + b);
      } else {
        assert Without(s, a) == [s[0]] + t;
        assert ([s[0]] + t)[1..] == t;
        assert Without([s[0]] + t, b) == (if s[0] in b then [] else [s[0]]) + Without(t, b);
      }
    }
  }

  /** Taking out values a sequence does not hold leaves it as it is. */
  lemma {:induction false} WithoutNothing<V>(s: seq<V>, gone: set<V>)
    requires forall i :: 0 <= i < |s| ==> s[i] !in gone
    ensures Without(s, gone) == s
  {
    if s != [] {
      WithoutNothing(s[1..], gone);
    }
  }

  /** The values a sequence holds, as a set. */
  function Elements<V>(s: seq<V>): set<V>
  {
    set x | x in s
  }

  lemma ElementsStep<V>(list: seq<V>, i: nat, j: nat)
    requires i < |list| && j == i + 1
    ensures Elements(list[..j]) == Elements(list[..i]) + {list[i]}
  {
    assert list[..j] == list[..i] + [list[i]];
  }

  /** Taking out every value a sequence holds leaves nothing. */
  lemma WithoutOwnElements<V>(s: seq<V>)
    ensures Without(s, Elements(s)) == []
  {
    forall i | 0 <= i < |s|
      ensures s[i] in Elements(s)
    {
    }
    WithoutCovered(s, Elements(s));
  }

  /** Taking out a set that covers the whole sequence leaves nothing. */
  lemma {:induction false} WithoutCovered<V>(s: seq<V>, gone: set<V>)
    requires forall i :: 0 <= i < |s| ==> s[i] in gone
    ensures Without(s, gone) == []
  {
    if s != [] {
      WithoutCovered(s[1..], gone);
    }
  }

  /** Taking out everything filed under `k` drops the key `k`. */
  lemma WithoutOwnBucket<K(!new), V>(m: map<K, seq<V>>, k: K)
    ensures k !in WithoutAll(m, Elements(Bucket(m, k)))
  {
    WithoutOwnElements(Bucket(m, k));
  }

  /** `x` is listed in the bucket under `k`. */
  predicate Listed<K, V(==)>(m: map<K, seq<V>>, k: K, x: V)
  {
    k in m && x in m[k]
  }

  /** Reading a bucket after the values of `gone` were taken out of every bucket. */
  lemma BucketOfWithoutAll<K(!new), V>(m: map<K, seq<V>>, gone: set<V>, k: K)
    ensures Bucket(WithoutAll(m, gone), k) == Without(Bucket(m, k), gone)
  {
  }

  /** Taking nothing out of an index without empty buckets leaves it as it is. */
  lemma WithoutAllNothing<K(!new), V>(m: map<K, seq<V>>)
    requires NoEmptyBucket(m)
    ensures WithoutAll(m, {}) == m
  {
    forall k | k in m
      ensures Without(m[k], {}) == m[k]
    {
      WithoutNothing(m[k], {});
    }
    assert WithoutAll(m, {}).Keys == m.Keys;
  }

  lemma WithoutAllTwice<K(!new), V>(m: map<K, seq<V>>, a: set<V>, b: set<V>)
    ensures WithoutAll(WithoutAll(m, a), b) == WithoutAll(m, a + b)
  {
    var l := WithoutAll(WithoutAll(m, a), b);
    var r := WithoutAll(m, a + b);
    forall k | k in m
      ensures Without(Without(m[k], a), b) == Without(m[k], a + b)
    {
      WithoutTwice(m[k], a, b);
    }
    forall k | k in l
      ensures k in r && l[k] == r[k]
    {
    }
    forall k | k in r
      ensures k in l
    {
      assert Without(Without(m[k], a), b) != [];
    }
    assert l.Keys == r.Keys;
  }

  /**
   * Removing `x` from the two buckets it can be in, as `RemoveFromBucket`
   * does, is taking it out of every bucket.
   */
  lemma RemoveFromTwoBuckets<K(!new), V>(m: map<K, seq<V>>, s: K, t: K, x: V)
    requires NoEmptyBucket(m)
    requires forall k :: k in m && x in m[k] ==> k == s || k == t
    ensures RemoveFromBucket(RemoveFromBucket(m, s, x), t, x) == WithoutAll(m, {x})
  {
    var l := RemoveFromBucket(RemoveFromBucket(m, s, x), t, x);
    var r := WithoutAll(m, {x});
    forall k
      ensures (k in l <==> k in r) && (k in l ==> l[k] == r[k])
    {
      RemoveFromTwoBucketsKey(m, s, t, x, k, l, r);
    }
    assert l.Keys == r.Keys;
  }

  /** The two removals and `WithoutAll` agree at key `k`. */
  lemma RemoveFromTwoBucketsKey<K(!new), V>(m: map<K, seq<V>>, s: K, t: K, x: V, k: K, l: map<K, seq<V>>, r: map<K, seq<V>>)
    requires NoEmptyBucket(m)
    requires forall k :: k in m && x in m[k] ==> k == s || k == t
    requires l == RemoveFromBucket(RemoveFromBucket(m, s, x), t, x)
    requires r == WithoutAll(m, {x})
    ensures (k in l <==> k in r) && (k in l ==> l[k] == r[k])
  {
    RemoveFromTwoBucketsAt(m, s, t, x, k, l);
    if k in l {
      assert l[k] == Bucket(l, k);
    }
  }

  lemma RemoveFromTwoBucketsAt<K(!new), V>(m: map<K, seq<V>>, s: K, t: K, x: V, k: K, l: map<K, seq<V>>)
    requires forall k :: k in m && x in m[k] ==> k == s || k == t
    requires l == RemoveFromBucket(RemoveFromBucket(m, s, x), t, x)
    ensures (k in l ==> k in m) && Bucket(l, k) == Without(Bucket(m, k), {x})
  {
    RemoveAllIsWithout(Bucket(m, k), x);
    var m1 := RemoveFromBucket(m, s, x);
    if k != s && k != t {
      if k in m {
        WithoutNothing(m[k], {x});
      }
    } else if k == s && k != t {
      assert Bucket(m1, k) == RemoveAll(Bucket(m, k), x);
    } else if k == t && k != s {
      assert Bucket(m1, k) == Bucket(m, k);
    } else {
      RemoveAllTwice(Bucket(m, k), x);
    }
  }
}
