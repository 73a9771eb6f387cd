/** A Python dict with string keys, as the agents use it: entries kept in
    insertion order, lookup by key, and assignment that either replaces the
    value of an existing key in place or appends a new entry. */
module PyDict {

  datatype Item<V> = Item(key: string, value: V)

  /** A sequence of entries can hold a key twice; a Python dict cannot. Every
      dict this model builds starts empty and grows only through Put, which
      keeps keys distinct (UniqueKeys, PutKeepsUniqueKeys); Get reads the
      first entry with the key. */
  type Dict<V> = seq<Item<V>>

  /** No key occurs in two entries. */
  predicate UniqueKeys<V>(d: Dict<V>) {
    forall i, j :: 0 <= i < j < |d| ==> d[i].key != d[j].key
  }

  /** d.keys(), in insertion order. */
  function Keys<V>(d: Dict<V>): (ks: seq<string>)
    ensures |ks| == |d| && forall i :: 0 <= i < |d| ==> ks[i] == d[i].key
  {
    if d == [] then [] else [d[0].key] + Keys(d[1..])
  }

  /** d[k]; Python raises KeyError when k is absent, so k must be present. */
  function Get<V>(d: Dict<V>, k: string): V
    requires k in Keys(d)
  {
    if d[0].key == k then d[0].value else Get(d[1..], k)
  }

  /** d[k] = v. */
  function Put<V>(d: Dict<V>, k: string, v: V): Dict<V> {
    if d == [] then [Item(k, v)]
    else if d[0].key == k then [Item(k, v)] + d[1..]
    else [d[0]] + Put(d[1..], k, v)
  }

  /** After d[k] = v an existing key keeps its position and a new key comes
      last; k maps to v and every other key keeps its value. */
  lemma {:induction false} PutSemantics<V>(d: Dict<V>, k: string, v: V)
    ensures Keys(Put(d, k, v)) == if k in Keys(d) then Keys(d) else Keys(d) + [k]
    ensures Get(Put(d, k, v), k) == v
    ensures forall k' :: k' != k && k' in Keys(d) ==> Get(Put(d, k, v), k') == Get(d, k')
  {
    if d != [] && d[0].key != k {
      PutSemantics(d[1..], k, v);
    }
  }

  /** Assigning a key the dict does not hold yet appends one entry at the end. */
  lemma {:induction false} PutNewKey<V>(d: Dict<V>, k: string)
    requires forall i :: 0 <= i < |d| ==> d[i].key != k
    ensures forall v :: Put(d, k, v) == d + [Item(k, v)]
  {
    if d != [] {
      PutNewKey(d[1..], k);
      assert d == [d[0]] + d[1..];
    }
  }

  /** d[k] = v never makes a key occur twice. */
  lemma PutKeepsUniqueKeys<V>(d: Dict<V>, k: string, v: V)
    requires UniqueKeys(d)
    ensures UniqueKeys(Put(d, k, v))
  {
    PutSemantics(d, k, v);
    var ks, ks' := Keys(d), Keys(Put(d, k, v));
    forall i, j | 0 <= i < j < |ks'| ensures ks'[i] != ks'[j] {
      if j == |ks| {
        assert ks'[i] == ks[i];
      }
    }
  }
}
