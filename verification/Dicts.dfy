/** Python dictionaries: a map that also remembers the order in which its keys were inserted. */
module Dicts {

  ghost predicate Distinct<T>(s: seq<T>) {
    forall i, j :: 0 <= i < j < |s| ==> s[i] != s[j]
  }

  datatype Dict<K(==), V> = Dict(keys: seq<K>, vals: map<K, V>) {

    /** The key sequence lists exactly the keys of the map, each once. */
    ghost predicate Valid() {
      && Distinct(keys)
      && (forall k | k in keys :: k in vals)
      && (forall k | k in vals :: k in keys)
    }

    /** `d[k] = v`: an existing key keeps its place. */
    function Put(k: K, v: V): Dict<K, V> {
      Dict(if k in vals then keys else keys + [k], vals[k := v])
    }

    /** `d.get(k, default)` */
    function GetOr(k: K, default: V): V {
      if k in vals then vals[k] else default
    }
  }

  function EmptyDict<K, V>(): Dict<K, V> {
    Dict([], map[])
  }

  lemma PutKeepsValid<K, V>(d: Dict<K, V>, k: K, v: V)
    requires d.Valid()
    ensures d.Put(k, v).Valid()
  {
  }
}
