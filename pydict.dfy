/**
 * Python's `dict`, which remembers insertion order: assigning to a key that is
 * already present replaces its value and keeps its place; a new key goes last.
 */
module PyDict {

  datatype Dict<K(!new), V> = Dict(keys: seq<K>, values: map<K, V>)
  {
    /** The keys are listed once each, and exactly the keys of the map are listed. */
    ghost predicate Valid() {
      (forall i, j :: 0 <= i < j < |keys| ==> keys[i] != keys[j])
      && (forall k :: k in values <==> k in keys)
    }

    /** `len(d)` */
    function Size(): nat {
      |keys|
    }

    /** `d[k] = v` */
    function Put(k: K, v: V): (d: Dict<K, V>)
      requires Valid()
      ensures d.Valid()
      ensures d.values == values[k := v]
      ensures k in keys ==> d.keys == keys
      ensures k !in keys ==> d.keys == keys + [k]
    {
      if k in keys then Dict(keys, values[k := v]) else Dict(keys + [k], values[k := v])
    }

    /** `d.values()`, in insertion order. */
    function Values(): (vs: seq<V>)
      requires Valid()
      ensures |vs| == |keys|
      ensures forall i :: 0 <= i < |keys| ==> vs[i] == values[keys[i]]
    {
      ValuesOf(keys, values)
    }
  }

  function ValuesOf<K(!new), V>(ks: seq<K>, m: map<K, V>): (vs: seq<V>)
    requires forall k :: k in ks ==> k in m
    ensures |vs| == |ks|
    ensures forall i :: 0 <= i < |ks| ==> vs[i] == m[ks[i]]
  {
    if ks == [] then [] else [m[ks[0]]] + ValuesOf(ks[1..], m)
  }

  /** `{}` */
  function Empty<K(!new), V>(): (d: Dict<K, V>)
    ensures d.Valid() && d.keys == [] && d.values == map[]
  {
    Dict([], map[])
  }

  /** Putting a key that is present changes neither the size nor the order. */
  lemma {:induction false} PutExistingKeepsOrder<K(!new), V>(d: Dict<K, V>, k: K, v: V, i: nat)
    requires d.Valid() && i < |d.keys| && d.keys[i] == k
    ensures d.Put(k, v).keys == d.keys && d.Put(k, v).Values()[i] == v
  {
  }
}
