/** Python dictionaries where the insertion order is observable: a sequence of
    key/value pairs with pairwise distinct keys. Assigning to an existing key
    keeps its position; assigning to a new key appends it. */
module OrderedMaps {
  import opened Wrappers
  import Seqs

  type Entries<K, V> = seq<(K, V)>

  function Keys<K, V>(e: Entries<K, V>): (ks: seq<K>)
    ensures |ks| == |e|
    ensures forall i :: 0 <= i < |e| ==> ks[i] == e[i].0
  {
    seq(|e|, i requires 0 <= i < |e| => e[i].0)
  }

  predicate DistinctKeys<K(==), V>(e: Entries<K, V>) {
    forall i, j :: 0 <= i < j < |e| ==> e[i].0 != e[j].0
  }

  /** `d.get(k)`. */
  function Get<K(==), V>(e: Entries<K, V>, k: K): (r: Option<V>)
    ensures r.None? <==> k !in Keys(e)
    ensures r.Some? ==> (k, r.value) in e
  {
    if e == [] then None
    else if e[0].0 == k then Some(e[0].1)
    else
      KeysCons(e);
      Get(e[1..], k)
  }

  lemma KeysCons<K, V>(e: Entries<K, V>)
    requires e != []
    ensures Keys(e) == [e[0].0] + Keys(e[1..])
  {
  }

  /** Under distinct keys, `Get` finds the value stored at any position. */
  lemma {:induction false} GetAt<K, V>(e: Entries<K, V>, i: nat)
    requires DistinctKeys(e) && i < |e|
    ensures Get(e, e[i].0) == Some(e[i].1)
  {
    if i > 0 {
      assert DistinctKeys(e[1..]) by {
        assert forall a, b :: 0 <= a < b < |e| - 1 ==> e[1..][a] == e[a + 1] && e[1..][b] == e[b + 1];
      }
      GetAt(e[1..], i - 1);
    }
  }

  /** The position of a key. */
  function IndexOfKey<K(==), V>(e: Entries<K, V>, k: K): (i: nat)
    requires k in Keys(e)
    ensures i < |e| && e[i].0 == k
  {
    if e[0].0 == k then 0
    else
      KeysCons(e);
      IndexOfKey(e[1..], k) + 1
  }

  /** `d[k] = v`: afterwards `k` maps to `v`, every other key is unaffected, and
      the key order only changes by appending a key that was new. */
  function Put<K(==,!new), V>(e: Entries<K, V>, k: K, v: V): (r: Entries<K, V>)
    requires DistinctKeys(e)
    ensures DistinctKeys(r)
    ensures Get(r, k) == Some(v)
    ensures forall k' :: k' != k ==> Get(r, k') == Get(e, k')
    ensures k in Keys(e) ==> Keys(r) == Keys(e)
    ensures k !in Keys(e) ==> Keys(r) == Keys(e) + [k]
  {
    var r := if k in Keys(e) then e[IndexOfKey(e, k) := (k, v)] else e + [(k, v)];
    PutOthers(e, k, v, r);
    r
  }

  /** `r` agrees with `e` except at position `n`, where it holds `(k, v)`. */
  lemma {:induction false} PutOthers<K(!new), V>(e: Entries<K, V>, k: K, v: V, r: Entries<K, V>)
    requires DistinctKeys(e)
    requires r == if k in Keys(e) then e[IndexOfKey(e, k) := (k, v)] else e + [(k, v)]
    ensures DistinctKeys(r)
    ensures Get(r, k) == Some(v)
    ensures forall k' :: k' != k ==> Get(r, k') == Get(e, k')
    ensures k in Keys(e) ==> Keys(r) == Keys(e)
    ensures k !in Keys(e) ==> Keys(r) == Keys(e) + [k]
  {
    var n := if k in Keys(e) then IndexOfKey(e, k) else |e|;
    PutShape(e, k, v, r, n);
    GetAt(r, n);
    forall k' | k' != k
      ensures Get(r, k') == Get(e, k')
    {
      if k' in Keys(e) {
        var j := IndexOfKey(e, k');
        GetAt(e, j);
        GetAt(r, j);
      } else {
        assert k' !in Keys(r);
      }
    }
  }

  lemma PutShape<K(!new), V>(e: Entries<K, V>, k: K, v: V, r: Entries<K, V>, n: nat)
    requires DistinctKeys(e)
    requires r == if k in Keys(e) then e[IndexOfKey(e, k) := (k, v)] else e + [(k, v)]
    requires n == if k in Keys(e) then IndexOfKey(e, k) else |e|
    ensures n < |r| && r[n] == (k, v) && |r| == if k in Keys(e) then |e| else |e| + 1
    ensures forall i :: 0 <= i < |r| && i != n ==> r[i] == e[i]
    ensures DistinctKeys(r)
    ensures k in Keys(e) ==> Keys(r) == Keys(e)
    ensures k !in Keys(e) ==> Keys(r) == Keys(e) + [k]
  {
    if k in Keys(e) {
      ReplaceShape(e, n, (k, v));
    } else {
      AppendShape(e, (k, v));
    }
  }

  lemma ReplaceShape<K, V>(e: Entries<K, V>, n: nat, p: (K, V))
    requires DistinctKeys(e) && n < |e| && e[n].0 == p.0
    ensures DistinctKeys(e[n := p]) && Keys(e[n := p]) == Keys(e)
  {
    var r := e[n := p];
    assert forall i :: 0 <= i < |r| ==> r[i].0 == e[i].0;
  }

  lemma AppendShape<K, V>(e: Entries<K, V>, p: (K, V))
    requires DistinctKeys(e) && p.0 !in Keys(e)
    ensures DistinctKeys(e + [p]) && Keys(e + [p]) == Keys(e) + [p.0]
  {
    var r := e + [p];
    assert forall i :: 0 <= i < |e| ==> r[i] == e[i] && e[i].0 != p.0;
  }

  /** `d.update(pairs)` for pairs given in iteration order: later pairs win. */
  function PutAll<K(==,!new), V>(e: Entries<K, V>, pairs: seq<(K, V)>): (r: Entries<K, V>)
    requires DistinctKeys(e)
    ensures DistinctKeys(r)
    decreases |pairs|
  {
    if pairs == [] then e else PutAll(Put(e, pairs[0].0, pairs[0].1), pairs[1..])
  }

  /** What `PutAll` leaves under each key: the value of the last pair with that
      key if there is one, the earlier value otherwise. */
  function LastValue<K(==), V>(pairs: seq<(K, V)>, k: K, otherwise: Option<V>): Option<V>
    decreases |pairs|
  {
    if pairs == [] then otherwise
    else LastValue(pairs[1..], k, if pairs[0].0 == k then Some(pairs[0].1) else otherwise)
  }

  lemma {:induction false} PutAllGet<K(!new), V>(e: Entries<K, V>, pairs: seq<(K, V)>, k: K)
    requires DistinctKeys(e)
    ensures Get(PutAll(e, pairs), k) == LastValue(pairs, k, Get(e, k))
    decreases |pairs|
  {
    if pairs != [] {
      PutAllGet(Put(e, pairs[0].0, pairs[0].1), pairs[1..], k);
    }
  }

  /** `LastValue` is the value of the last pair with the key when there is one,
      and the fallback otherwise. */
  lemma {:induction false} LastValueCases<K, V>(pairs: seq<(K, V)>, k: K, otherwise: Option<V>)
    ensures k !in Keys(pairs) ==> LastValue(pairs, k, otherwise) == otherwise
    ensures k in Keys(pairs) ==> LastValue(pairs, k, otherwise).Some?
                                 && (k, LastValue(pairs, k, otherwise).value) in pairs
    decreases |pairs|
  {
    if pairs != [] {
      var next := if pairs[0].0 == k then Some(pairs[0].1) else otherwise;
      LastValueCases(pairs[1..], k, next);
      assert Keys(pairs) == [pairs[0].0] + Keys(pairs[1..]);
    }
  }

  /** `d.update(pairs)` keeps the existing keys in place; new keys go after them. */
  lemma {:induction false} PutAllKeepsOrder<K(!new), V>(e: Entries<K, V>, pairs: seq<(K, V)>)
    requires DistinctKeys(e)
    ensures |Keys(e)| <= |Keys(PutAll(e, pairs))|
    ensures Keys(PutAll(e, pairs))[..|e|] == Keys(e)
    decreases |pairs|
  {
    if pairs != [] {
      var next := Put(e, pairs[0].0, pairs[0].1);
      var r := PutAll(e, pairs);
      assert r == PutAll(next, pairs[1..]);
      PutAllKeepsOrder(next, pairs[1..]);
      assert |e| <= |next|;
      assert Keys(next)[..|e|] == Keys(e);
      Seqs.PrefixOfPrefix(Keys(e), Keys(next), Keys(r));
    }
  }

  /** `d.update(pairs + [p])` is `d.update(pairs)` followed by one assignment. */
  lemma {:induction false} PutAllSnoc<K(!new), V>(e: Entries<K, V>, pairs: seq<(K, V)>, p: (K, V))
    requires DistinctKeys(e)
    ensures PutAll(e, pairs + [p]) == Put(PutAll(e, pairs), p.0, p.1)
    decreases |pairs|
  {
    if pairs == [] {
      assert [] + [p] == [p];
    } else {
      assert (pairs + [p])[1..] == pairs[1..] + [p];
      PutAllSnoc(Put(e, pairs[0].0, pairs[0].1), pairs[1..], p);
    }
  }

  /** The key order after `d.update(pairs)`: the existing keys, then each new
      key of `pairs` at its first assignment. */
  lemma {:induction false} PutAllKeys<K(!new), V>(e: Entries<K, V>, pairs: seq<(K, V)>)
    requires DistinctKeys(e)
    ensures Keys(PutAll(e, pairs)) == Seqs.Dedup(Keys(e) + Keys(pairs))
    decreases |pairs|
  {
    if pairs == [] {
      assert Keys(e) + Keys(pairs) == Keys(e);
      assert Seqs.Distinct(Keys(e));
      Seqs.DedupDistinct(Keys(e));
    } else {
      var init := pairs[..|pairs| - 1];
      var p := pairs[|pairs| - 1];
      assert pairs == init + [p];
      PutAllKeys(e, init);
      PutAllKeysStep(e, init, p);
    }
  }

  lemma PutAllKeysStep<K(!new), V>(e: Entries<K, V>, init: seq<(K, V)>, p: (K, V))
    requires DistinctKeys(e) && Keys(PutAll(e, init)) == Seqs.Dedup(Keys(e) + Keys(init))
    ensures Keys(PutAll(e, init + [p])) == Seqs.Dedup(Keys(e) + Keys(init + [p]))
  {
    var before := Keys(e) + Keys(init);
    var m := PutAll(e, init);
    PutAllSnoc(e, init, p);
    assert PutAll(e, init + [p]) == Put(m, p.0, p.1);
    PutKeys(m, before, p.0, p.1);
    KeysSnoc(init, p);
    Seqs.ConcatAssoc(Keys(e), Keys(init), [p.0]);
  }

  /** One assignment extends the key order as deduplication does. */
  lemma PutKeys<K(!new), V>(m: Entries<K, V>, before: seq<K>, k: K, v: V)
    requires DistinctKeys(m) && Keys(m) == Seqs.Dedup(before)
    ensures Keys(Put(m, k, v)) == Seqs.Dedup(before + [k])
  {
    Seqs.DedupSnoc(before, k);
  }

  lemma KeysSnoc<K, V>(pairs: seq<(K, V)>, p: (K, V))
    ensures Keys(pairs + [p]) == Keys(pairs) + [p.0]
  {
  }
}
