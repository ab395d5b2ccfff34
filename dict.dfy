/**
 A Python `dict`: a finite map that remembers the order in which its keys were
 first inserted. Iteration (`.keys()`, `.items()`) follows that order, and
 overwriting the value of a present key does not move it.
 */
module PyDict {

  /** No element occurs twice. */
  predicate Distinct<K(==)>(s: seq<K>)
  {
    forall i, j :: 0 <= i < j < |s| ==> s[i] != s[j]
  }

  datatype Dict<K(==,!new), V> = Dict(keys: seq<K>, values: map<K, V>)
  {
    /** The key order lists every key of the map exactly once. */
    ghost predicate Valid()
    {
      Distinct(keys) && (forall k :: k in values <==> k in keys)
    }

    /** `not d` in Python: the dict has no entries. */
    predicate IsEmpty()
    {
      |keys| == 0
    }
  }

  function Empty<K(==,!new), V>(): (d: Dict<K, V>)
    ensures d.Valid() && d.IsEmpty() && d.values == map[]
  {
    Dict([], map[])
  }

  /** `d[k] = v`: a new key goes to the end of the order, a present key keeps its place. */
  function Set<K(==,!new), V>(d: Dict<K, V>, k: K, v: V): (r: Dict<K, V>)
    ensures d.Valid() ==> r.Valid() && !r.IsEmpty()
    ensures r.values == d.values[k := v]
    ensures k in d.values ==> r.keys == d.keys
    ensures k !in d.values ==> r.keys == d.keys + [k]
  {
    if k in d.values then Dict(d.keys, d.values[k := v]) else Dict(d.keys + [k], d.values[k := v])
  }

  /** `d.get(k, default)`. */
  function GetOr<K(==,!new), V>(d: Dict<K, V>, k: K, default: V): V
  {
    if k in d.values then d.values[k] else default
  }

  /** `list(d.items())`: the entries in key order. */
  function Items<K(==,!new), V>(d: Dict<K, V>): (r: seq<(K, V)>)
    requires d.Valid()
    ensures |r| == |d.keys|
    ensures forall i :: 0 <= i < |r| ==> r[i].0 == d.keys[i] && r[i].1 == d.values[d.keys[i]]
  {
    seq(|d.keys|, i requires 0 <= i < |d.keys| => (d.keys[i], d.values[d.keys[i]]))
  }

  /** The first components of a list of pairs. */
  function Firsts<K, V>(s: seq<(K, V)>): (r: seq<K>)
    ensures |r| == |s| && forall i :: 0 <= i < |s| ==> r[i] == s[i].0
  {
    seq(|s|, i requires 0 <= i < |s| => s[i].0)
  }

  /** The entries of a valid dict have distinct keys, and they are the dict's keys. */
  lemma ItemsKeys<K(!new), V>(d: Dict<K, V>)
    requires d.Valid()
    ensures Firsts(Items(d)) == d.keys
    ensures Distinct(Firsts(Items(d)))
  {
    assert Firsts(Items(d)) == d.keys;
  }
}
