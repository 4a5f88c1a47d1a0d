/** Python `dict` as the agent uses it: insertion-ordered key/value pairs.
    The order matters because `json.dumps` writes keys in insertion order. */
module Dict {
  import opened Common

  type Dict<K, V> = seq<(K, V)>

  function Keys<K, V>(d: Dict<K, V>): (ks: seq<K>)
    ensures |ks| == |d|
    ensures forall i :: 0 <= i < |d| ==> ks[i] == d[i].0
  {
    seq(|d|, i requires 0 <= i < |d| => d[i].0)
  }

  /** `d.get(k)`. When a key occurs twice (as `json.loads` allows in its input),
      the last value wins, as in Python. */
  function Get<K(==), V>(d: Dict<K, V>, k: K): (r: Option<V>)
    ensures r.None? <==> k !in Keys(d)
    decreases |d|
  {
    if |d| == 0 then None
    else if d[|d| - 1].0 == k then Some(d[|d| - 1].1)
    else
      var r := Get(d[..|d| - 1], k);
      assert Keys(d) == Keys(d[..|d| - 1]) + [d[|d| - 1].0];
      r
  }

  /** Two dicts with the same key sequence that agree on every entry for `k`
      agree on `Get(_, k)`. */
  lemma {:induction false} GetSameEntries<K, V>(a: Dict<K, V>, b: Dict<K, V>, k: K)
    requires Keys(a) == Keys(b)
    requires forall i :: 0 <= i < |a| && a[i].0 == k ==> a[i] == b[i]
    ensures Get(a, k) == Get(b, k)
    decreases |a|
  {
    assert |a| == |Keys(a)| == |b|;
    if |a| > 0 {
      var n := |a| - 1;
      assert a[n].0 == Keys(a)[n] == Keys(b)[n] == b[n].0;
      assert Keys(a[..n]) == Keys(b[..n]) by {
        assert forall i :: 0 <= i < n ==> Keys(a[..n])[i] == Keys(a)[i] == Keys(b)[i] == Keys(b[..n])[i];
      }
      if a[n].0 != k {
        GetSameEntries(a[..n], b[..n], k);
      }
    }
  }

  /** When every entry for `k` holds `v`, looking `k` up gives `v`. */
  lemma {:induction false} GetUniform<K, V>(d: Dict<K, V>, k: K, v: V)
    requires k in Keys(d)
    requires forall i :: 0 <= i < |d| && d[i].0 == k ==> d[i].1 == v
    ensures Get(d, k) == Some(v)
    decreases |d|
  {
    var n := |d| - 1;
    if d[n].0 != k {
      assert Keys(d) == Keys(d[..n]) + [d[n].0];
      GetUniform(d[..n], k, v);
    }
  }

  /** `d[k] = v` (equivalently `d.update({k: v})`): an existing key keeps its
      position and takes the new value; a new key is appended. */
  function Put<K(==,!new), V>(d: Dict<K, V>, k: K, v: V): (r: Dict<K, V>)
    ensures Get(r, k) == Some(v)
    ensures forall k' :: k' != k ==> Get(r, k') == Get(d, k')
    ensures k in Keys(d) ==> Keys(r) == Keys(d)
    ensures k !in Keys(d) ==> Keys(r) == Keys(d) + [k]
  {
    if k in Keys(d) then
      var r := seq(|d|, i requires 0 <= i < |d| => if d[i].0 == k then (k, v) else d[i]);
      assert Keys(r) == Keys(d);
      GetUniform(r, k, v);
      assert forall k' :: k' != k ==> Get(r, k') == Get(d, k') by {
        forall k' | k' != k ensures Get(r, k') == Get(d, k') {
          GetSameEntries(r, d, k');
        }
      }
      r
    else
      var r := d + [(k, v)];
      assert r[..|r| - 1] == d;
      assert Keys(r) == Keys(d) + [k];
      r
  }

  /** `d.update(pairs)`: each pair written in order. */
  function PutAll<K(==,!new), V>(d: Dict<K, V>, pairs: Dict<K, V>): Dict<K, V>
    decreases |pairs|
  {
    if |pairs| == 0 then d
    else PutAll(Put(d, pairs[0].0, pairs[0].1), pairs[1..])
  }

  /** After `d.update(pairs)` a key holds its last value in `pairs` when it has
      one there, and its old value otherwise. */
  lemma {:induction false} PutAllGet<K(!new), V>(d: Dict<K, V>, pairs: Dict<K, V>, k: K)
    ensures Get(PutAll(d, pairs), k) == if Get(pairs, k).Some? then Get(pairs, k) else Get(d, k)
    decreases |pairs|
  {
    if |pairs| > 0 {
      var d' := Put(d, pairs[0].0, pairs[0].1);
      PutAllGet(d', pairs[1..], k);
      GetTail(pairs, k);
    }
  }

  /** Looking up in a non-empty dict: a later entry for `k` wins over the first one. */
  lemma {:induction false} GetTail<K, V>(pairs: Dict<K, V>, k: K)
    requires |pairs| > 0
    ensures Get(pairs, k) == if Get(pairs[1..], k).Some? then Get(pairs[1..], k)
                             else if pairs[0].0 == k then Some(pairs[0].1) else None
    decreases |pairs|
  {
    var n := |pairs| - 1;
    if n > 0 {
      assert pairs[1..][..n - 1] == pairs[..n][1..];
      if pairs[n].0 != k {
        GetTail(pairs[..n], k);
      }
    }
  }

  /** The keys of a dict built by `Put`s are pairwise distinct. */
  predicate DistinctKeys<K(==), V>(d: Dict<K, V>) {
    forall i, j :: 0 <= i < j < |d| ==> d[i].0 != d[j].0
  }

  lemma PutKeepsDistinct<K(!new), V>(d: Dict<K, V>, k: K, v: V)
    requires DistinctKeys(d)
    ensures DistinctKeys(Put(d, k, v))
  {
    var r := Put(d, k, v);
    assert forall i :: 0 <= i < |r| ==> r[i].0 == Keys(r)[i];
  }
}
