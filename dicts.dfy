/** Python dictionaries with string keys, which iterate in the order keys were first inserted. */
module Dicts {
  datatype Dict<V> = Dict(keys: seq<string>, entries: map<string, V>) {
    /** Every key is listed once, and the listed keys are exactly those with an entry. */
    predicate Valid() {
      (forall i, j :: 0 <= i < j < |keys| ==> keys[i] != keys[j]) &&
      (forall k :: k in entries ==> k in keys) && (forall k :: k in keys ==> k in entries)
    }

    /** `d[k] = v`: a new key goes last, an existing key keeps its place. */
    function Put(k: string, v: V): (r: Dict<V>)
      requires Valid()
      ensures r.Valid()
      ensures r.entries == entries[k := v]
      ensures k in entries ==> r.keys == keys
      ensures k !in entries ==> r.keys == keys + [k]
    {
      if k in entries then Dict(keys, entries[k := v]) else Dict(keys + [k], entries[k := v])
    }

    /** A second store under the same key replaces the first: `d.setdefault(k, u)` then `d[k] = v` is `d[k] = v`. */
    lemma PutTwice(k: string, u: V, v: V)
      requires Valid()
      ensures Put(k, u).Put(k, v) == Put(k, v)
    {
      assert entries[k := u][k := v] == entries[k := v];
    }

    /** `d.items()`: each key with its value, in key order. */
    function Items(): (r: seq<(string, V)>)
      requires Valid()
      ensures |r| == |keys|
      ensures forall i :: 0 <= i < |r| ==> r[i].0 == keys[i] && r[i].0 in entries && r[i].1 == entries[keys[i]]
    {
      seq(|keys|, i requires 0 <= i < |keys| && Valid() => (keys[i], entries[keys[i]]))
    }
  }

  /** `{}` */
  function EmptyDict<V>(): (r: Dict<V>)
    ensures r.Valid() && r.keys == [] && r.entries == map[]
  {
    Dict([], map[])
  }
}
