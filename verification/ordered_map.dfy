/** An insertion-ordered dictionary, as Python's `dict` is: a sequence of
    key/value items with distinct keys. Reading it back with `AsMap` gives
    the plain mapping that each operation is stated against, and `Keys`
    gives the iteration order. */
module OrderedMap {
  import opened Wrappers

  datatype Item<K, V> = Item(key: K, value: V)

  predicate DistinctKeys<K(==), V>(items: seq<Item<K, V>>) {
    forall i, j | 0 <= i < j < |items| :: items[i].key != items[j].key
  }

  /** A dictionary never holds the same key twice. */
  type Dict<K(==), V> = items: seq<Item<K, V>> | DistinctKeys(items) witness []

  /** The keys in iteration order: what `d.keys()` yields. */
  function Keys<K(==), V>(items: seq<Item<K, V>>): seq<K> {
    seq(|items|, i requires 0 <= i < |items| => items[i].key)
  }

  /** The dictionary read as an unordered mapping. */
  function AsMap<K(==), V>(d: Dict<K, V>): map<K, V> {
    map i | 0 <= i < |d| :: d[i].key := d[i].value
  }

  /** `ks` with every occurrence of `k` dropped and the rest kept in order. */
  function Without<K(==)>(ks: seq<K>, k: K): seq<K> {
    if ks == [] then []
    else (if ks[0] == k then [] else [ks[0]]) + Without(ks[1..], k)
  }

  lemma AsMapDomain<K, V>(d: Dict<K, V>)
    ensures forall k :: k in AsMap(d) <==> k in Keys(d)
  {
    forall k
      ensures k in AsMap(d) <==> k in Keys(d)
    {
      if k in Keys(d) {
        var i :| 0 <= i < |d| && Keys(d)[i] == k;
        assert d[i].key == k;
      }
      if k in AsMap(d) {
        var i :| 0 <= i < |d| && d[i].key == k;
        assert Keys(d)[i] == k;
      }
    }
  }

  lemma AsMapAt<K, V>(d: Dict<K, V>, i: nat)
    requires i < |d|
    ensures d[i].key in AsMap(d) && AsMap(d)[d[i].key] == d[i].value
  {
  }

  /** The position of `k` among the items, if it is there. */
  function Find<K(==), V>(items: seq<Item<K, V>>, k: K): (r: Option<nat>)
    ensures r.Some? ==> r.value < |items| && items[r.value].key == k
    ensures r.None? ==> k !in Keys(items)
  {
    if items == [] then None
    else if items[|items| - 1].key == k then Some(|items| - 1)
    else
      var r := Find(items[..|items| - 1], k);
      assert Keys(items) == Keys(items[..|items| - 1]) + [items[|items| - 1].key];
      r
  }

  /** `d[k]` guarded by `k in d`. */
  function Lookup<K(==), V>(d: Dict<K, V>, k: K): (r: Option<V>)
    ensures r == (if k in AsMap(d) then Some(AsMap(d)[k]) else None)
  {
    AsMapDomain(d);
    match Find(d, k)
    case None => None
    case Some(i) => AsMapAt(d, i); Some(d[i].value)
  }

  /** `d[k] = x`: an existing key keeps its place and takes the new value;
      a new key goes last. */
  function Put<K(==), V>(d: Dict<K, V>, k: K, x: V): (r: Dict<K, V>)
    ensures k in Keys(d) ==> Keys(r) == Keys(d)
    ensures k !in Keys(d) ==> Keys(r) == Keys(d) + [k]
    ensures AsMap(r) == AsMap(d)[k := x]
  {
    match Find(d, k)
    case Some(i) =>
      PutAtIsUpdate(d, i, x);
      assert Keys(d)[i] == k;
      d[i := Item(k, x)]
    case None =>
      AppendIsUpdate(d, k, x);
      d + [Item(k, x)]
  }

  lemma PutAtIsUpdate<K, V>(d: Dict<K, V>, i: nat, x: V)
    requires i < |d|
    ensures DistinctKeys(d[i := Item(d[i].key, x)])
    ensures Keys(d[i := Item(d[i].key, x)]) == Keys(d)
    ensures AsMap(d[i := Item(d[i].key, x)]) == AsMap(d)[d[i].key := x]
  {
    var k := d[i].key;
    var r: Dict<K, V> := d[i := Item(k, x)];
    assert Keys(r) == Keys(d);
    var m := AsMap(d)[k := x];
    forall y | y in AsMap(r)
      ensures y in m && AsMap(r)[y] == m[y]
    {
      var j :| 0 <= j < |r| && r[j].key == y;
      AsMapAt(r, j);
      AsMapAt(d, j);
    }
    forall y | y in m
      ensures y in AsMap(r)
    {
      if y != k {
        var j :| 0 <= j < |d| && d[j].key == y;
        AsMapAt(r, j);
      } else {
        AsMapAt(r, i);
      }
    }
  }

  lemma AppendIsUpdate<K, V>(d: Dict<K, V>, k: K, x: V)
    requires k !in Keys(d)
    ensures DistinctKeys(d + [Item(k, x)])
    ensures Keys(d + [Item(k, x)]) == Keys(d) + [k]
    ensures AsMap(d + [Item(k, x)]) == AsMap(d)[k := x]
  {
    forall i | 0 <= i < |d|
      ensures d[i].key != k
    {
      assert Keys(d)[i] == d[i].key;
    }
    var r: Dict<K, V> := d + [Item(k, x)];
    assert Keys(r) == Keys(d) + [k];
    var m := AsMap(d)[k := x];
    forall y | y in AsMap(r)
      ensures y in m && AsMap(r)[y] == m[y]
    {
      var j :| 0 <= j < |r| && r[j].key == y;
      AsMapAt(r, j);
      if j < |d| {
        AsMapAt(d, j);
      }
    }
    forall y | y in m
      ensures y in AsMap(r)
    {
      if y != k {
        var j :| 0 <= j < |d| && d[j].key == y;
        AsMapAt(r, j);
      } else {
        AsMapAt(r, |d|);
      }
    }
  }

  /** `del d[k]`, or nothing when `k` is absent: the other keys keep their
      relative order. */
  function Remove<K(==), V>(d: Dict<K, V>, k: K): (r: Dict<K, V>)
    ensures Keys(r) == Without(Keys(d), k)
    ensures AsMap(r) == AsMap(d) - {k}
  {
    match Find(d, k)
    case None =>
      WithoutAbsent(Keys(d), k);
      AsMapDomain(d);
      d
    case Some(i) =>
      RemoveAtIsRemove(d, i);
      d[..i] + d[i + 1..]
  }

  lemma {:induction false} WithoutAbsent<K>(ks: seq<K>, k: K)
    requires k !in ks
    ensures Without(ks, k) == ks
  {
    if ks != [] {
      WithoutAbsent(ks[1..], k);
    }
  }

  lemma {:induction false} WithoutAppend<K>(a: seq<K>, b: seq<K>, k: K)
    ensures Without(a + b, k) == Without(a, k) + Without(b, k)
  {
    if a == [] {
      assert a + b == b;
    } else {
      assert (a + b)[1..] == a[1..] + b;
      WithoutAppend(a[1..], b, k);
    }
  }

  /** Dropping the only occurrence of a key is cutting it out. */
  lemma WithoutOnly<K>(ks: seq<K>, i: nat)
    requires i < |ks|
    requires ks[i] !in ks[..i] && ks[i] !in ks[i + 1..]
    ensures Without(ks, ks[i]) == ks[..i] + ks[i + 1..]
  {
    var k := ks[i];
    var a, b := ks[..i], ks[i + 1..];
    assert ks == (a + [k]) + b;
    assert Without([k], k) == [] by {
      assert [k][1..] == [];
    }
    calc {
      Without(ks, k);
      { WithoutAppend(a + [k], b, k); }
      Without(a + [k], k) + Without(b, k);
      { WithoutAppend(a, [k], k); }
      Without(a, k) + Without([k], k) + Without(b, k);
      { WithoutAbsent(a, k); WithoutAbsent(b, k); }
      a + b;
    }
  }

  lemma RemoveAtIsRemove<K, V>(d: Dict<K, V>, i: nat)
    requires i < |d|
    ensures DistinctKeys(d[..i] + d[i + 1..])
    ensures Keys(d[..i] + d[i + 1..]) == Without(Keys(d), d[i].key)
    ensures AsMap(d[..i] + d[i + 1..]) == AsMap(d) - {d[i].key}
  {
    var k := d[i].key;
    var r: Dict<K, V> := d[..i] + d[i + 1..];
    var ks := Keys(d);
    assert k !in ks[..i] && k !in ks[i + 1..] by {
      assert forall j | 0 <= j < |d| && j != i :: ks[j] != k;
    }
    WithoutOnly(ks, i);
    assert Keys(r) == ks[..i] + ks[i + 1..];
    RemoveAtMap(d, i);
  }

  lemma RemoveAtMap<K, V>(d: Dict<K, V>, i: nat)
    requires i < |d|
    ensures DistinctKeys(d[..i] + d[i + 1..])
    ensures AsMap(d[..i] + d[i + 1..]) == AsMap(d) - {d[i].key}
  {
    var k := d[i].key;
    var r: Dict<K, V> := d[..i] + d[i + 1..];
    var m := AsMap(d) - {k};
    forall y | y in AsMap(r)
      ensures y in m && AsMap(r)[y] == m[y]
    {
      var j :| 0 <= j < |r| && r[j].key == y;
      AsMapAt(r, j);
      var j' := if j < i then j else j + 1;
      assert r[j] == d[j'];
      AsMapAt(d, j');
    }
    forall y | y in m
      ensures y in AsMap(r)
    {
      var j :| 0 <= j < |d| && d[j].key == y;
      assert j != i;
      var j' := if j < i then j else j - 1;
      assert r[j'] == d[j];
      AsMapAt(r, j');
    }
  }
}
