/**
 * Python's `dict` as the pipelines use it: insertion-ordered, where an
 * assignment to an existing key replaces the value and keeps the key's
 * original position, and iteration follows first insertion.
 */
module PyDict {
  import opened Common

  datatype Dict<K(==,!new), V> = Dict(keys: seq<K>, entries: map<K, V>)
  {
    /** Keys are distinct and exactly the keys of the map. */
    ghost predicate Valid()
    {
      NoDuplicates(keys) && (forall k :: k in entries <==> k in keys)
    }

    /** `d[k] = v` */
    function Put(k: K, v: V): (d: Dict<K, V>)
      ensures d.entries == entries[k := v]
      ensures d.keys == if k in entries then keys else keys + [k]
      ensures Valid() ==> d.Valid()
    {
      Dict(if k in entries then keys else keys + [k], entries[k := v])
    }

    /** `d.get(k)` */
    function Get(k: K): (r: Option<V>)
      ensures r.Some? <==> k in entries
      ensures r.Some? ==> r.value == entries[k]
    {
      if k in entries then Some(entries[k]) else None
    }

    /** `list(d.values())` */
    function Values(): (vs: seq<V>)
      requires Valid()
      ensures |vs| == |keys|
      ensures forall i :: 0 <= i < |keys| ==> vs[i] == entries[keys[i]]
    {
      seq(|keys|, i requires 0 <= i < |keys| => entries[keys[i]])
    }
  }

  function Empty<K(==,!new), V>(): (d: Dict<K, V>)
    ensures d.Valid() && d.keys == []
  {
    Dict([], map[])
  }

  /** The dict after assigning every pair in order: `for k, v in pairs: d[k] = v`. */
  function PutAll<K(==,!new), V>(pairs: seq<(K, V)>): (d: Dict<K, V>)
    ensures d.Valid()
  {
    if pairs == [] then Empty()
    else PutAll(pairs[..|pairs| - 1]).Put(pairs[|pairs| - 1].0, pairs[|pairs| - 1].1)
  }

  /** Pair `j` is the last one assigning `key`. */
  lemma PutAllSnoc<K(!new), V>(pairs: seq<(K, V)>, key: K, value: V)
    ensures PutAll(pairs + [(key, value)]) == PutAll(pairs).Put(key, value)
  {
    assert (pairs + [(key, value)])[..|pairs|] == pairs;
  }

  predicate LastAssigns<K(==), V>(pairs: seq<(K, V)>, j: int, key: K)
  {
    0 <= j < |pairs| && pairs[j].0 == key && forall l :: j < l < |pairs| ==> pairs[l].0 != key
  }

  /** Some pair assigns `key`. */
  predicate Assigns<K(==), V>(pairs: seq<(K, V)>, key: K)
  {
    exists j :: 0 <= j < |pairs| && pairs[j].0 == key
  }

  /** The keys are exactly the assigned ones. */
  lemma {:induction false} PutAllKeys<K(!new), V>(pairs: seq<(K, V)>, key: K)
    ensures key in PutAll(pairs).entries <==> Assigns(pairs, key)
  {
    if pairs != [] {
      var pre, n := pairs[..|pairs| - 1], |pairs| - 1;
      PutAllKeys(pre, key);
      if pairs[n].0 != key {
        if j :| 0 <= j < |pairs| && pairs[j].0 == key {
          assert j < n && pre[j] == pairs[j];
        }
        if j :| 0 <= j < |pre| && pre[j].0 == key {
          assert pre[j] == pairs[j];
        }
      }
    }
  }

  /** The last assignment to a key wins. */
  lemma {:induction false} PutAllLastWins<K(!new), V>(pairs: seq<(K, V)>, key: K, j: int)
    requires LastAssigns(pairs, j, key)
    ensures key in PutAll(pairs).entries && PutAll(pairs).entries[key] == pairs[j].1
  {
    var pre, n := pairs[..|pairs| - 1], |pairs| - 1;
    if j < n {
      assert pre[j] == pairs[j];
      assert LastAssigns(pre, j, key) by {
        forall l | j < l < |pre| ensures pre[l].0 != key {
          assert pre[l] == pairs[l];
        }
      }
      PutAllLastWins(pre, key, j);
    }
  }
}
