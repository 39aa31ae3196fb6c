/** A Python `dict` with string keys. Python dicts iterate in insertion
    order, and the gesture matcher's tie-break depends on that order, so
    the model keeps the order of the keys beside the key-to-value map. */
module PyDict {

  datatype Dict<V> = Dict(keys: seq<string>, values: map<string, V>)
  {
    /** The keys are listed once each, and exactly the keys of the map are listed. */
    ghost predicate Valid()
    {
      && (forall i, j :: 0 <= i < j < |keys| ==> keys[i] != keys[j])
      && (forall k :: k in values <==> k in keys)
    }
  }

  /** `a` and `b` hold the same keys with the same values, except perhaps `k`. */
  ghost predicate AgreeExcept<V>(a: Dict<V>, b: Dict<V>, k: string)
  {
    forall k' :: k' != k ==>
      && (k' in a.values <==> k' in b.values)
      && (k' in a.values ==> a.values[k'] == b.values[k'])
  }

  /** The literal `{}`. */
  function Empty<V>(): (d: Dict<V>)
    ensures d.Valid() && d.keys == [] && d.values == map[]
  {
    Dict([], map[])
  }

  /** The position of `k` in a key order. */
  function IndexOf(keys: seq<string>, k: string): (i: nat)
    requires k in keys
    ensures i < |keys| && keys[i] == k && k !in keys[..i]
  {
    if keys[0] == k then 0 else 1 + IndexOf(keys[1..], k)
  }

  /** The statement `d[k] = v`: `k` now maps to `v`; every other key keeps
      its value; an existing key keeps its place and a new key goes last. */
  function SetItem<V>(d: Dict<V>, k: string, v: V): (r: Dict<V>)
    requires d.Valid()
    ensures r.Valid()
    ensures k in r.values && r.values[k] == v
    ensures forall k' :: k' != k ==> (k' in r.values <==> k' in d.values)
    ensures forall k' :: k' != k && k' in d.values ==> r.values[k'] == d.values[k']
    ensures k in d.values ==> r.keys == d.keys
    ensures k !in d.values ==> r.keys == d.keys + [k]
  {
    if k in d.values then Dict(d.keys, d.values[k := v])
    else Dict(d.keys + [k], d.values[k := v])
  }

  /** The statement `del d[k]` (which raises `KeyError` unless `k` is
      present): `k` and its value are gone; every other key keeps its value
      and the remaining keys keep their relative order. */
  function DelItem<V>(d: Dict<V>, k: string): (r: Dict<V>)
    requires d.Valid() && k in d.values
    ensures r.Valid()
    ensures k !in r.values
    ensures forall k' :: k' != k ==> (k' in r.values <==> k' in d.values)
    ensures forall k' :: k' != k && k' in d.values ==> r.values[k'] == d.values[k']
    ensures r.keys == Without(d.keys, k)
  {
    var i := IndexOf(d.keys, k);
    RemoveAt(d.keys, i);
    WithoutAt(d.keys, i);
    var keys := d.keys[..i] + d.keys[i + 1..];
    Dict(keys, d.values - {k})
  }

  /** A key order with `k` filtered out: the other keys, in their order. */
  function Without(keys: seq<string>, k: string): seq<string>
  {
    if keys == [] then []
    else if keys[0] == k then Without(keys[1..], k)
    else [keys[0]] + Without(keys[1..], k)
  }

  /** Filtering out a key that is not listed changes nothing. */
  lemma {:induction false} WithoutAbsent(keys: seq<string>, k: string)
    requires k !in keys
    ensures Without(keys, k) == keys
  {
    if keys != [] {
      WithoutAbsent(keys[1..], k);
    }
  }

  /** In a duplicate-free key order, filtering out the key at position `i`
      is cutting position `i` out. */
  lemma {:induction false} WithoutAt(keys: seq<string>, i: nat)
    requires i < |keys|
    requires forall p, q :: 0 <= p < q < |keys| ==> keys[p] != keys[q]
    ensures Without(keys, keys[i]) == keys[..i] + keys[i + 1..]
  {
    var tail := keys[1..];
    if i == 0 {
      assert keys[0] !in tail;
      WithoutAbsent(tail, keys[0]);
    } else {
      assert tail[i - 1] == keys[i];
      WithoutAt(tail, i - 1);
      assert keys[..i] == [keys[0]] + tail[..i - 1];
      assert keys[i + 1..] == tail[i..];
    }
  }

  /** Removing the key at position `i` from a duplicate-free key order
      leaves a duplicate-free order holding every other key. */
  lemma RemoveAt(keys: seq<string>, i: nat)
    requires i < |keys|
    requires forall p, q :: 0 <= p < q < |keys| ==> keys[p] != keys[q]
    ensures var rest := keys[..i] + keys[i + 1..];
      && (forall p, q :: 0 <= p < q < |rest| ==> rest[p] != rest[q])
      && (forall k :: k in rest <==> k in keys && k != keys[i])
  {
    var rest := keys[..i] + keys[i + 1..];
    assert forall p :: 0 <= p < |rest| ==> rest[p] == if p < i then keys[p] else keys[p + 1];
    forall k | k in keys && k != keys[i] ensures k in rest {
      var p :| 0 <= p < |keys| && keys[p] == k;
      if p < i { assert rest[p] == k; } else { assert rest[p - 1] == k; }
    }
  }
}
