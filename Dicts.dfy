/** Python dicts: the keys in insertion order next to the entries. */
module Dicts {
  import opened Text

  datatype Dict<K, V> = Dict(keys: seq<K>, entries: map<K, V>)

  /** What every Python dict satisfies: each key once, and the keys are the entries' domain. */
  predicate DictOk<K(==), V>(d: Dict<K, V>) {
    NoDup(d.keys) && (forall k :: k in d.entries ==> k in d.keys) && forall k :: k in d.keys ==> k in d.entries
  }

  /** `d[k] = v`: a new key goes last, an existing one keeps its place. */
  function Put<K(==), V>(d: Dict<K, V>, k: K, v: V): (r: Dict<K, V>)
    ensures r.entries == d.entries[k := v]
    ensures k in d.keys ==> r.keys == d.keys
    ensures k !in d.keys ==> r.keys == d.keys + [k]
    ensures DictOk(d) ==> DictOk(r)
  {
    Dict(if k in d.keys then d.keys else d.keys + [k], d.entries[k := v])
  }

  /** `d.update(e)` restricted to the keys `ks` of `e`, in order. */
  function UpdateKeys<K(==), V>(d: Dict<K, V>, e: Dict<K, V>, ks: seq<K>): Dict<K, V>
    requires forall k :: k in ks ==> k in e.entries
  {
    if ks == [] then d
    else Put(UpdateKeys(d, e, ks[..|ks| - 1]), ks[|ks| - 1], e.entries[ks[|ks| - 1]])
  }

  /** `d.update(e)`. */
  function Update<K(==), V>(d: Dict<K, V>, e: Dict<K, V>): Dict<K, V>
    requires DictOk(e)
  {
    UpdateKeys(d, e, e.keys)
  }

  /** `update` keeps the dict well formed, keeps the old keys in front and adds the new ones. */
  lemma {:induction false} UpdateKeysKeys<K, V>(d: Dict<K, V>, e: Dict<K, V>, ks: seq<K>)
    requires DictOk(d) && forall k :: k in ks ==> k in e.entries
    ensures var r := UpdateKeys(d, e, ks);
            DictOk(r) && |d.keys| <= |r.keys| && r.keys[..|d.keys|] == d.keys &&
            forall k :: k in r.keys <==> k in d.keys || k in ks
    decreases |ks|
  {
    if ks != [] {
      var init, x := ks[..|ks| - 1], ks[|ks| - 1];
      UpdateKeysKeys(d, e, init);
      var before := UpdateKeys(d, e, init);
      assert forall k :: k in ks <==> k in init || k == x;
      if x !in before.keys {
        assert (before.keys + [x])[..|d.keys|] == before.keys[..|d.keys|];
      }
    }
  }

  /** After `update` a key of `ks` holds `e`'s value, any other key its old one. */
  lemma {:induction false} UpdateKeysEntries<K, V>(d: Dict<K, V>, e: Dict<K, V>, ks: seq<K>)
    requires forall k :: k in ks ==> k in e.entries
    ensures var r := UpdateKeys(d, e, ks);
            (forall k :: k in r.entries <==> k in d.entries || k in ks) &&
            forall k :: k in r.entries ==> r.entries[k] == if k in ks then e.entries[k] else d.entries[k]
    decreases |ks|
  {
    if ks != [] {
      var init := ks[..|ks| - 1];
      UpdateKeysEntries(d, e, init);
      assert forall k :: k in ks <==> k in init || k == ks[|ks| - 1];
    }
  }

  /** A map that holds `b`'s value on the keys `ks` of `b` and `a`'s elsewhere is `a + b`. */
  lemma UnionOver<K, V>(m: map<K, V>, a: map<K, V>, b: map<K, V>, ks: seq<K>)
    requires (forall k :: k in ks ==> k in b) && forall k :: k in b ==> k in ks
    requires forall k :: k in m <==> k in a || k in ks
    requires forall k :: k in m ==> m[k] == if k in ks then b[k] else a[k]
    ensures m == a + b
  {
    assert m.Keys == (a + b).Keys;
  }

  /** `update` is a right-biased union: every key of either dict is present,
      `e`'s value wins, the keys `d` already had keep their order in front. */
  lemma UpdateIsUnion<K, V>(d: Dict<K, V>, e: Dict<K, V>)
    requires DictOk(d) && DictOk(e)
    ensures var r := Update(d, e);
            DictOk(r) && r.entries == d.entries + e.entries &&
            |d.keys| <= |r.keys| && r.keys[..|d.keys|] == d.keys &&
            forall k :: k in r.keys <==> k in d.keys || k in e.keys
  {
    UpdateKeysKeys(d, e, e.keys);
    UpdateKeysEntries(d, e, e.keys);
    UnionOver(Update(d, e).entries, d.entries, e.entries, e.keys);
  }

  /** `d.setdefault(k, v)`: a key already present keeps its value and place. */
  function SetDefault<K(==), V>(d: Dict<K, V>, k: K, v: V): (r: Dict<K, V>)
    ensures k in d.keys ==> r == d
    ensures k !in d.keys ==> r == Put(d, k, v)
  {
    if k in d.keys then d else Put(d, k, v)
  }

  /** Setting a key twice leaves the second value, at the place the first one took. */
  lemma PutTwice<K, V>(d: Dict<K, V>, k: K, x: V, y: V)
    ensures Put(Put(d, k, x), k, y) == Put(d, k, y)
  {
    assert d.entries[k := x][k := y] == d.entries[k := y];
  }
}
