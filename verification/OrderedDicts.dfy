/** Python's insertion-ordered dictionaries, as lists of items with distinct keys. */
module OrderedDicts {
  import opened Wrappers

  datatype Item<K, V> = Item(key: K, value: V)

  type Dict<K, V> = seq<Item<K, V>>

  function Lookup<K(==), V>(d: Dict<K, V>, k: K): Option<V> {
    if d == [] then None
    else if d[0].key == k then Some(d[0].value)
    else Lookup(d[1..], k)
  }

  /** `d[k] = v`: in place when the key is there, at the end otherwise. */
  function Put<K(==), V>(d: Dict<K, V>, k: K, v: V): Dict<K, V> {
    if d == [] then [Item(k, v)]
    else if d[0].key == k then [Item(k, v)] + d[1..]
    else [d[0]] + Put(d[1..], k, v)
  }

  /** `d.pop(k, None)`. */
  function Delete<K(==), V>(d: Dict<K, V>, k: K): Dict<K, V> {
    if d == [] then []
    else if d[0].key == k then d[1..]
    else [d[0]] + Delete(d[1..], k)
  }

  function KeysOf<K, V>(d: Dict<K, V>): (keys: seq<K>)
    ensures |keys| == |d|
  {
    if d == [] then [] else [d[0].key] + KeysOf(d[1..])
  }

  predicate DistinctKeys<K(==), V>(d: Dict<K, V>) {
    d == [] || (Lookup(d[1..], d[0].key) == None && DistinctKeys(d[1..]))
  }

  lemma {:induction false} LookupPut<K, V>(d: Dict<K, V>, k: K, v: V, k': K)
    ensures Lookup(Put(d, k, v), k') == if k' == k then Some(v) else Lookup(d, k')
  {
    if d != [] {
      if d[0].key == k {
        assert Put(d, k, v)[1..] == d[1..];
      } else {
        LookupPut(d[1..], k, v, k');
        assert Put(d, k, v)[1..] == Put(d[1..], k, v);
      }
    }
  }

  lemma {:induction false} LookupDelete<K, V>(d: Dict<K, V>, k: K, k': K)
    requires DistinctKeys(d)
    ensures Lookup(Delete(d, k), k') == if k' == k then None else Lookup(d, k')
  {
    if d != [] {
      if d[0].key != k {
        LookupDelete(d[1..], k, k');
        assert Delete(d, k)[1..] == Delete(d[1..], k);
      }
    }
  }

  lemma {:induction false} PutDistinct<K, V>(d: Dict<K, V>, k: K, v: V)
    requires DistinctKeys(d)
    ensures DistinctKeys(Put(d, k, v))
  {
    if d != [] {
      if d[0].key == k {
        assert Put(d, k, v)[1..] == d[1..];
      } else {
        PutDistinct(d[1..], k, v);
        LookupPut(d[1..], k, v, d[0].key);
        assert Put(d, k, v)[1..] == Put(d[1..], k, v);
      }
    }
  }

  lemma {:induction false} DeleteDistinct<K, V>(d: Dict<K, V>, k: K)
    requires DistinctKeys(d)
    ensures DistinctKeys(Delete(d, k))
  {
    if d != [] && d[0].key != k {
      DeleteDistinct(d[1..], k);
      LookupDelete(d[1..], k, d[0].key);
      assert Delete(d, k)[1..] == Delete(d[1..], k);
    }
  }

  lemma {:induction false} KeysAreKeys<K, V>(d: Dict<K, V>, k: K)
    ensures k in KeysOf(d) <==> Lookup(d, k).Some?
  {
    if d != [] {
      KeysAreKeys(d[1..], k);
      assert forall x :: x in KeysOf(d) <==> x == d[0].key || x in KeysOf(d[1..]);
    }
  }

  /** A new key goes last, and one that is there keeps its place. */
  lemma {:induction false} PutKeepsOrder<K, V>(d: Dict<K, V>, k: K, v: V)
    ensures KeysOf(Put(d, k, v)) == if Lookup(d, k).Some? then KeysOf(d) else KeysOf(d) + [k]
  {
    if d == [] {
      assert [Item(k, v)][1..] == [];
    } else if d[0].key == k {
      assert Put(d, k, v)[1..] == d[1..];
    } else {
      PutKeepsOrder(d[1..], k, v);
      assert Put(d, k, v)[1..] == Put(d[1..], k, v);
    }
  }

  /** Only the item of the key is taken out. */
  lemma {:induction false} DeleteKeepsOrder<K, V>(d: Dict<K, V>, k: K) returns (i: nat)
    requires Lookup(d, k).Some?
    ensures i < |d| && d[i].key == k && Delete(d, k) == d[..i] + d[i + 1..]
  {
    if d[0].key == k {
      i := 0;
    } else {
      i := DeleteKeepsOrder(d[1..], k);
      i := i + 1;
    }
  }

  predicate NoRepeats<T(==)>(items: seq<T>) {
    items == [] || (items[0] !in items[1..] && NoRepeats(items[1..]))
  }

  lemma {:induction false} KeysOnce<K, V>(d: Dict<K, V>)
    requires DistinctKeys(d)
    ensures NoRepeats(KeysOf(d))
  {
    if d != [] {
      KeysOnce(d[1..]);
      KeysAreKeys(d[1..], d[0].key);
      assert KeysOf(d)[1..] == KeysOf(d[1..]);
    }
  }

  /** `d.update(items)`. */
  function PutAll<K(==), V>(d: Dict<K, V>, items: Dict<K, V>): Dict<K, V>
    decreases items
  {
    if items == [] then d else PutAll(Put(d, items[0].key, items[0].value), items[1..])
  }

  lemma {:induction false} LookupPutAll<K, V>(d: Dict<K, V>, items: Dict<K, V>, k: K)
    requires DistinctKeys(items)
    ensures Lookup(PutAll(d, items), k) == if Lookup(items, k).Some? then Lookup(items, k) else Lookup(d, k)
    decreases items
  {
    if items != [] {
      LookupPut(d, items[0].key, items[0].value, k);
      LookupPutAll(Put(d, items[0].key, items[0].value), items[1..], k);
    }
  }

  lemma {:induction false} PutAllDistinct<K, V>(d: Dict<K, V>, items: Dict<K, V>)
    requires DistinctKeys(d)
    ensures DistinctKeys(PutAll(d, items))
    decreases items
  {
    if items != [] {
      PutDistinct(d, items[0].key, items[0].value);
      PutAllDistinct(Put(d, items[0].key, items[0].value), items[1..]);
    }
  }
}
