/** Python's `dict`: a finite map whose keys remember the order they were first inserted. */
module OrderedDict {
  import opened Wrappers

  datatype Dict<K, V> = Dict(keys: seq<K>, items: map<K, V>)

  predicate Distinct<K(==)>(s: seq<K>) {
    forall i, j :: 0 <= i < j < |s| ==> s[i] != s[j]
  }

  /** The keys list holds every key of the map exactly once. */
  predicate Valid<K, V>(d: Dict<K, V>) {
    && Distinct(d.keys)
    && (forall k | k in d.items :: k in d.keys)
    && (forall i | 0 <= i < |d.keys| :: d.keys[i] in d.items)
  }

  function Empty<K, V>(): (d: Dict<K, V>)
    ensures Valid(d)
  {
    Dict([], map[])
  }

  /** `d.get(k)`. */
  function Get<K, V>(d: Dict<K, V>, k: K): Option<V> {
    if k in d.items then Some(d.items[k]) else None
  }

  /** `d[k] = v`: an existing key keeps its position, a new one goes last. */
  function Put<K, V>(d: Dict<K, V>, k: K, v: V): (r: Dict<K, V>)
    requires Valid(d)
    ensures Valid(r)
  {
    if k in d.items then Dict(d.keys, d.items[k := v])
    else Dict(d.keys + [k], d.items[k := v])
  }

  /** `d.setdefault(k, v)`: a no-op when `k` is present. */
  function SetDefault<K, V>(d: Dict<K, V>, k: K, v: V): (r: Dict<K, V>)
    requires Valid(d)
    ensures Valid(r)
  {
    if k in d.items then d else Dict(d.keys + [k], d.items[k := v])
  }

  /** The list without the occurrences of `k`. */
  function RemoveFrom<K(==)>(s: seq<K>, k: K): (r: seq<K>)
    ensures forall x | x in r :: x in s && x != k
    ensures forall i | 0 <= i < |s| && s[i] != k :: s[i] in r
    ensures Distinct(s) ==> Distinct(r)
    decreases |s|
  {
    if |s| == 0 then []
    else
      var rest := RemoveFrom(s[1..], k);
      assert Distinct(s) ==> s[0] !in s[1..];
      if s[0] == k then rest else [s[0]] + rest
  }

  /** `del d[k]` (only called when `k` is present). */
  function Remove<K, V>(d: Dict<K, V>, k: K): (r: Dict<K, V>)
    requires Valid(d)
    ensures Valid(r)
  {
    var ks := RemoveFrom(d.keys, k);
    assert forall i | 0 <= i < |ks| :: ks[i] in ks;
    Dict(ks, d.items - {k})
  }
}
