/**
 * Insertion-ordered dictionaries (Python's `dict` and `OrderedDict`) as
 * sequences of key/value pairs with distinct keys.
 */
module OrderedDicts {
  import opened Wrappers

  type ODict<K, V> = seq<(K, V)>

  predicate HasKey<K(==), V>(od: ODict<K, V>, k: K) {
    exists i :: 0 <= i < |od| && od[i].0 == k
  }

  /** `od.get(k)`. */
  function Lookup<K(==), V>(od: ODict<K, V>, k: K): (r: Option<V>)
    ensures r.Some? <==> HasKey(od, k)
  {
    if od == [] then None
    else if od[0].0 == k then Some(od[0].1)
    else
      assert HasKey(od, k) <==> HasKey(od[1..], k) by {
        if HasKey(od, k) {
          var i :| 0 <= i < |od| && od[i].0 == k;
          assert od[1..][i - 1].0 == k;
        }
        if HasKey(od[1..], k) {
          var i :| 0 <= i < |od[1..]| && od[1..][i].0 == k;
          assert od[i + 1].0 == k;
        }
      }
      Lookup(od[1..], k)
  }

  /** `od[k] = v`: an existing key keeps its position, a new one goes last. */
  function Put<K(==), V>(od: ODict<K, V>, k: K, v: V): ODict<K, V>
    decreases |od|
  {
    if od == [] then [(k, v)]
    else if od[0].0 == k then [(k, v)] + od[1..]
    else [od[0]] + Put(od[1..], k, v)
  }

  /** After `od[k] = v`, `k` maps to `v` and every other key to what it mapped to before. */
  lemma {:induction false} PutLookup<K, V>(od: ODict<K, V>, k: K, v: V, k': K)
    ensures Lookup(Put(od, k, v), k') == if k' == k then Some(v) else Lookup(od, k')
    decreases |od|
  {
    if od != [] && od[0].0 != k {
      var r := Put(od, k, v);
      assert r[1..] == Put(od[1..], k, v);
      PutLookup(od[1..], k, v, k');
    } else if od != [] {
      var r := Put(od, k, v);
      assert r[1..] == od[1..];
    }
  }

  /** A new key is appended. */
  lemma {:induction false} PutNew<K, V>(od: ODict<K, V>, k: K, v: V)
    requires !HasKey(od, k)
    ensures Put(od, k, v) == od + [(k, v)]
    decreases |od|
  {
    if od != [] {
      assert od[0].0 != k;
      PutNew(od[1..], k, v);
      assert od == [od[0]] + od[1..];
    }
  }

  /** The keys, in order. */
  function Keys<K, V>(od: ODict<K, V>): (r: seq<K>)
    ensures |r| == |od| && forall i :: 0 <= i < |od| ==> r[i] == od[i].0
  {
    if od == [] then [] else [od[0].0] + Keys(od[1..])
  }

  /** `od[k] = v` leaves the order of the keys as it was, adding a new key last. */
  lemma {:induction false} PutKeys<K, V>(od: ODict<K, V>, k: K, v: V)
    ensures Keys(Put(od, k, v)) == if HasKey(od, k) then Keys(od) else Keys(od) + [k]
    decreases |od|
  {
    if od != [] && od[0].0 != k {
      PutKeys(od[1..], k, v);
      assert HasKey(od, k) <==> HasKey(od[1..], k) by {
        if HasKey(od, k) {
          var i :| 0 <= i < |od| && od[i].0 == k;
          assert od[1..][i - 1].0 == k;
        }
        if HasKey(od[1..], k) {
          var i :| 0 <= i < |od[1..]| && od[1..][i].0 == k;
          assert od[i + 1].0 == k;
        }
      }
    } else if od != [] {
      assert od[0].0 == k;
    }
  }

  /** A dictionary holds each key once. */
  predicate DistinctKeys<K(==), V>(od: ODict<K, V>) {
    forall i, j :: 0 <= i < j < |od| ==> od[i].0 != od[j].0
  }

  /** In a dictionary, the value found for the key at position `i` is the value stored there. */
  lemma {:induction false} LookupAt<K, V>(od: ODict<K, V>, i: nat)
    requires DistinctKeys(od) && i < |od|
    ensures Lookup(od, od[i].0) == Some(od[i].1)
    decreases i
  {
    if i > 0 {
      assert od[0].0 != od[i].0;
      assert od[1..][i - 1] == od[i];
      LookupAt(od[1..], i - 1);
    }
  }

  /** `od[k] = v` keeps every key held once. */
  lemma PutDistinct<K, V>(od: ODict<K, V>, k: K, v: V)
    requires DistinctKeys(od)
    ensures DistinctKeys(Put(od, k, v))
  {
    var r := Put(od, k, v);
    PutKeys(od, k, v);
    var ks, rs := Keys(od), Keys(r);
    forall i, j | 0 <= i < j < |r|
      ensures r[i].0 != r[j].0
    {
      assert rs[i] == r[i].0 && rs[j] == r[j].0;
      if !HasKey(od, k) && j == |od| {
        assert rs[j] == k && rs[i] == ks[i] == od[i].0;
      } else {
        assert rs[i] == ks[i] && rs[j] == ks[j];
      }
    }
  }
}
