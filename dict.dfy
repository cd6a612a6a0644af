/**
 * A Python `dict` as the server uses it: a mapping whose keys remember the
 * order they were inserted in, which is the order iteration visits them.
 */
module OrderedDict {
  import opened Wrappers

  predicate Distinct<K(==)>(ks: seq<K>)
  {
    forall i, j :: 0 <= i < j < |ks| ==> ks[i] != ks[j]
  }

  /** `keys` lists the keys of `items` once each, in insertion order. */
  datatype Dict<K(==), V> = Dict(keys: seq<K>, items: map<K, V>)
  {
    ghost predicate Valid()
    {
      && Distinct(keys)
      && (forall k :: k in items ==> k in keys)
      && (forall i :: 0 <= i < |keys| ==> keys[i] in items)
    }

    /** `d[k] = v`: a new key goes last, an existing key keeps its place. */
    function Put(k: K, v: V): (d: Dict<K, V>)
      requires Valid()
      ensures d.Valid()
      ensures d.items == items[k := v]
      ensures d.keys == if k in items then keys else keys + [k]
    {
      if k in items then Dict(keys, items[k := v]) else Dict(keys + [k], items[k := v])
    }

    /** `del d[k]`: the entry is gone and the other keys keep their order. */
    function Remove(k: K): (d: Dict<K, V>)
      requires Valid() && k in items
      ensures d.Valid()
      ensures d.items == items - {k}
      ensures d.keys == Without(keys, k)
    {
      var rest := Without(keys, k);
      assert forall i :: 0 <= i < |rest| ==> rest[i] in rest;
      Dict(rest, items - {k})
    }
  }

  /** The sequence with every occurrence of `k` left out. */
  function Without<K(==)>(ks: seq<K>, k: K): (r: seq<K>)
    ensures forall x :: x in r ==> x in ks && x != k
    ensures forall i :: 0 <= i < |ks| && ks[i] != k ==> ks[i] in r
    ensures Distinct(ks) ==> Distinct(r)
  {
    if ks == [] then []
    else if ks[0] == k then Without(ks[1..], k)
    else
      var rest := Without(ks[1..], k);
      assert Distinct(ks) ==> ks[0] !in ks[1..];
      [ks[0]] + rest
  }

  /**
   * The first position at or after `from`, in insertion order, whose key maps
   * to `target`; `|d.keys|` when there is none.
   */
  function FindValue<K(==), V(==)>(d: Dict<K, V>, target: V, from: nat): (i: nat)
    requires d.Valid() && from <= |d.keys|
    ensures from <= i <= |d.keys|
    ensures i < |d.keys| ==> d.items[d.keys[i]] == target
    ensures forall j :: from <= j < i ==> d.items[d.keys[j]] != target
    decreases |d.keys| - from
  {
    if from == |d.keys| then from
    else if d.items[d.keys[from]] == target then from
    else FindValue(d, target, from + 1)
  }

  /** The first key, in insertion order, whose value is `target`. */
  function KeyOf<K(==), V(==)>(d: Dict<K, V>, target: V): (r: Option<K>)
    requires d.Valid()
    ensures r.None? <==> target !in d.items.Values
    ensures r.Some? ==> r.value in d.items && d.items[r.value] == target
    ensures r.Some? ==> r.value == d.keys[FindValue(d, target, 0)]
  {
    var i := FindValue(d, target, 0);
    if i < |d.keys| then Some(d.keys[i])
    else
      assert forall k :: k in d.items ==> d.items[k] != target by {
        forall k | k in d.items ensures d.items[k] != target {
          var j :| 0 <= j < |d.keys| && d.keys[j] == k;
        }
      }
      None
  }

  /** No two keys share a value. */
  ghost predicate Injective<K, V>(d: Dict<K, V>)
  {
    forall a, b :: a in d.items && b in d.items && a != b ==> d.items[a] != d.items[b]
  }
}
