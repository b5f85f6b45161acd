/**
 * Insertion-ordered dictionaries, the behaviour shared by Python's `dict` and
 * `collections.OrderedDict`: a sequence of items whose keys are pairwise
 * distinct, the oldest insertion first.
 */
module OrderedMaps {
  import opened Common

  datatype Item<K, V> = Item(key: K, value: V)

  /** No key occurs twice: the sequence is a dictionary. */
  predicate DistinctKeys<K(==), V>(d: seq<Item<K, V>>)
  {
    forall i, j :: 0 <= i < j < |d| ==> d[i].key != d[j].key
  }

  /** The keys of the dictionary. */
  ghost function KeySet<K, V>(d: seq<Item<K, V>>): set<K>
  {
    set x | x in d :: x.key
  }

  /** Position of `k`, or -1 when `k` is not a key. */
  function IndexOf<K(==, !new), V(!new)>(d: seq<Item<K, V>>, k: K): (i: int)
    ensures -1 <= i < |d|
    ensures 0 <= i ==> d[i].key == k
    ensures 0 <= i ==> forall j :: 0 <= j < i ==> d[j].key != k
    ensures i == -1 <==> k !in KeySet(d)
  {
    if d == [] then -1
    else if d[0].key == k then 0
    else
      var j := IndexOf(d[1..], k);
      assert forall x :: x in d[1..] ==> x in d;
      assert k !in KeySet(d[1..]) ==> k !in KeySet(d) by {
        if k in KeySet(d) {
          var x :| x in d && x.key == k;
          var p :| 0 <= p < |d| && d[p] == x;
          assert p != 0;
          assert d[1..][p - 1] == x;
        }
      }
      if j == -1 then -1 else j + 1
  }

  /** `d.get(k)`: the value stored under `k`, if any. */
  function Lookup<K(==, !new), V(!new)>(d: seq<Item<K, V>>, k: K): (r: Option<V>)
    ensures r.Some? <==> k in KeySet(d)
    ensures r.Some? ==> Item(k, r.value) in d
  {
    var i := IndexOf(d, k);
    if i < 0 then None else Some(d[i].value)
  }

  /** `del d[k]`, a no-op when `k` is absent. */
  function Delete<K(==, !new), V(!new)>(d: seq<Item<K, V>>, k: K): (r: seq<Item<K, V>>)
    ensures forall x :: x in r <==> x in d && x.key != k
    ensures |r| <= |d|
  {
    if d == [] then []
    else if d[0].key == k then Delete(d[1..], k)
    else [d[0]] + Delete(d[1..], k)
  }

  /** Deleting removes exactly the key from the key set. */
  lemma DeleteKeySet<K(!new), V(!new)>(d: seq<Item<K, V>>, k: K)
    ensures KeySet(Delete(d, k)) == KeySet(d) - {k}
  {
  }

  /** Deleting an absent key changes nothing. */
  lemma {:induction false} DeleteAbsent<K(!new), V(!new)>(d: seq<Item<K, V>>, k: K)
    requires k !in KeySet(d)
    ensures Delete(d, k) == d
  {
    if d != [] {
      assert d[0] in d;
      assert forall x :: x in d[1..] ==> x in d;
      DeleteAbsent(d[1..], k);
    }
  }

  /** Deleting from a dictionary leaves a dictionary. */
  lemma {:induction false} DeleteKeepsDistinct<K(!new), V(!new)>(d: seq<Item<K, V>>, k: K)
    requires DistinctKeys(d)
    ensures DistinctKeys(Delete(d, k))
  {
    if d != [] {
      DistinctHead(d);
      assert DistinctKeys(d[1..]);
      DeleteKeepsDistinct(d[1..], k);
      if d[0].key != k {
        var rest := Delete(d[1..], k);
        forall j | 0 <= j < |rest| ensures rest[j].key != d[0].key {
          assert rest[j] in rest;
        }
        assert DistinctKeys([d[0]] + rest);
      }
    }
  }

  /** The first key of a dictionary does not occur in the rest of it. */
  lemma DistinctHead<K(!new), V(!new)>(d: seq<Item<K, V>>)
    requires d != [] && DistinctKeys(d)
    ensures d[0].key !in KeySet(d[1..])
  {
    forall x | x in d[1..] ensures x.key != d[0].key {
      var p :| 0 <= p < |d[1..]| && d[1..][p] == x;
      assert d[p + 1] == x;
    }
  }

  /** The dictionary with every key of `ks` deleted; the survivors keep their order. */
  function Without<K(==, !new), V(!new)>(d: seq<Item<K, V>>, ks: set<K>): (r: seq<Item<K, V>>)
    ensures forall x :: x in r <==> x in d && x.key !in ks
    ensures DistinctKeys(d) ==> DistinctKeys(r)
  {
    if d == [] then []
    else if d[0].key in ks then Without(d[1..], ks)
    else
      var rest := Without(d[1..], ks);
      if DistinctKeys(d) then
        DistinctHead(d);
        [d[0]] + rest
      else
        [d[0]] + rest
  }

  /** Deleting a set of keys keeps the survivors in their order: what is left is a subsequence. */
  lemma {:induction false} WithoutKeepsOrder<K(!new), V(!new)>(d: seq<Item<K, V>>, ks: set<K>)
    ensures IsSubsequence(Without(d, ks), d)
  {
    if d != [] {
      WithoutKeepsOrder(d[1..], ks);
      if d[0].key !in ks {
        var r := Without(d, ks);
        assert r[0] == d[0] && r[1..] == Without(d[1..], ks);
      }
    }
  }

  /** Deleting one key and then a set of keys is deleting their union. */
  lemma {:induction false} WithoutAfterDelete<K(!new), V(!new)>(d: seq<Item<K, V>>, k: K, ks: set<K>)
    ensures Without(Delete(d, k), ks) == Without(d, ks + {k})
  {
    if d != [] {
      WithoutAfterDelete(d[1..], k, ks);
    }
  }

  /** A suffix of a dictionary is a dictionary over fewer keys. */
  lemma SuffixOfDictionary<K(!new), V(!new)>(c: seq<Item<K, V>>, n: nat)
    requires n <= |c| && DistinctKeys(c)
    ensures DistinctKeys(c[n..]) && KeySet(c[n..]) <= KeySet(c)
  {
    forall x | x in c[n..] ensures x in c {
      var p :| 0 <= p < |c[n..]| && c[n..][p] == x;
      assert c[n + p] == x;
    }
  }

  /** Deleting twice is deleting once. */
  lemma {:induction false} DeleteIdempotent<K(!new), V(!new)>(d: seq<Item<K, V>>, k: K)
    ensures Delete(Delete(d, k), k) == Delete(d, k)
  {
    DeleteKeySet(d, k);
    DeleteAbsent(Delete(d, k), k);
  }

  /** `d[k] = v`: replaces the value in place when `k` is a key, appends otherwise. */
  function Put<K(==, !new), V(!new)>(d: seq<Item<K, V>>, k: K, v: V): (r: seq<Item<K, V>>)
    ensures KeySet(r) == KeySet(d) + {k}
    ensures DistinctKeys(d) ==> DistinctKeys(r) && Lookup(r, k) == Some(v)
    ensures DistinctKeys(d) ==> forall k' :: k' != k ==> Lookup(r, k') == Lookup(d, k')
  {
    var i := IndexOf(d, k);
    if i >= 0 then
      PutAtKeepsOthers(d, i, v);
      d[i := Item(k, v)]
    else
      AppendKeepsOthers(d, Item(k, v));
      d + [Item(k, v)]
  }

  /** Every entry after `d[k] = v` is the new one or was already there. */
  lemma PutEntries<K(!new), V(!new)>(d: seq<Item<K, V>>, k: K, v: V)
    ensures forall x :: x in Put(d, k, v) ==> x == Item(k, v) || x in d
  {
    var i := IndexOf(d, k);
    forall x | x in Put(d, k, v) ensures x == Item(k, v) || x in d {
      if i >= 0 {
        var p :| 0 <= p < |d| && d[i := Item(k, v)][p] == x;
        assert p != i ==> d[p] == x;
      }
    }
  }

  /** `d.move_to_end(k)` for a key `k` of `d`. */
  function MoveToEnd<K(==, !new), V(!new)>(d: seq<Item<K, V>>, k: K): (r: seq<Item<K, V>>)
    requires k in KeySet(d)
  {
    Delete(d, k) + [Item(k, Lookup(d, k).value)]
  }

  lemma {:induction false} PutAtKeepsOthers<K(!new), V(!new)>(d: seq<Item<K, V>>, i: int, v: V)
    requires 0 <= i < |d| && i == IndexOf(d, d[i].key)
    ensures KeySet(d[i := Item(d[i].key, v)]) == KeySet(d)
    ensures DistinctKeys(d) ==> DistinctKeys(d[i := Item(d[i].key, v)])
    ensures DistinctKeys(d) ==> Lookup(d[i := Item(d[i].key, v)], d[i].key) == Some(v)
    ensures DistinctKeys(d) ==> forall k' :: k' != d[i].key ==> Lookup(d[i := Item(d[i].key, v)], k') == Lookup(d, k')
  {
    var r := d[i := Item(d[i].key, v)];
    forall x | x in r ensures x.key in KeySet(d) {
      var p :| 0 <= p < |r| && r[p] == x;
      assert d[p] in d;
    }
    forall k | k in KeySet(d) ensures k in KeySet(r) {
      var x :| x in d && x.key == k;
      var p :| 0 <= p < |d| && d[p] == x;
      assert r[p] in r;
    }
    if DistinctKeys(d) {
      forall k' ensures k' != d[i].key ==> Lookup(r, k') == Lookup(d, k') {
        if k' != d[i].key {
          DistinctLookup(r, k');
          DistinctLookup(d, k');
        }
      }
      DistinctLookup(r, d[i].key);
    }
  }

  lemma {:induction false} AppendKeepsOthers<K(!new), V(!new)>(d: seq<Item<K, V>>, x: Item<K, V>)
    requires x.key !in KeySet(d)
    ensures KeySet(d + [x]) == KeySet(d) + {x.key}
    ensures DistinctKeys(d) ==> DistinctKeys(d + [x])
    ensures DistinctKeys(d) ==> Lookup(d + [x], x.key) == Some(x.value)
    ensures DistinctKeys(d) ==> forall k' :: k' != x.key ==> Lookup(d + [x], k') == Lookup(d, k')
  {
    var r := d + [x];
    forall y | y in r ensures y in d || y == x {}
    if DistinctKeys(d) {
      forall p | 0 <= p < |d| ensures d[p].key != x.key {
        assert d[p] in d;
      }
      assert DistinctKeys(r);
      forall k' ensures k' != x.key ==> Lookup(r, k') == Lookup(d, k') {
        if k' != x.key {
          DistinctLookup(r, k');
          DistinctLookup(d, k');
        }
      }
      DistinctLookup(r, x.key);
    }
  }

  /** In a dictionary, the key's item is the only one carrying that key. */
  lemma DistinctLookup<K(!new), V(!new)>(d: seq<Item<K, V>>, k: K)
    requires DistinctKeys(d)
    ensures forall v :: Item(k, v) in d ==> Lookup(d, k) == Some(v)
  {
    forall v | Item(k, v) in d ensures Lookup(d, k) == Some(v) {
      var p :| 0 <= p < |d| && d[p] == Item(k, v);
      var i := IndexOf(d, k);
      assert i >= 0;
      assert i == p;
    }
  }

  /** In a dictionary, the key of a stored entry looks up that entry's value. */
  lemma LookupEntry<K(!new), V(!new)>(d: seq<Item<K, V>>, x: Item<K, V>)
    requires DistinctKeys(d) && x in d
    ensures Lookup(d, x.key) == Some(x.value)
  {
    DistinctLookup(d, x.key);
  }

  /** Deleting the key of an entry takes exactly that entry out of the multiset of entries. */
  lemma {:induction false} DeleteRemovesEntry<K(!new), V(!new)>(d: seq<Item<K, V>>, x: Item<K, V>)
    requires DistinctKeys(d) && x in d
    ensures multiset(Delete(d, x.key)) + multiset{x} == multiset(d)
  {
    var rest := d[1..];
    assert multiset(d) == multiset{d[0]} + multiset(rest) by {
      assert d == [d[0]] + rest;
    }
    if d[0].key == x.key {
      assert d[0] == x && Delete(d, x.key) == rest by {
        var p :| 0 <= p < |d| && d[p] == x;
        assert p == 0;
        DistinctHead(d);
        DeleteAbsent(rest, x.key);
      }
    } else {
      assert multiset(Delete(rest, x.key)) + multiset{x} == multiset(rest) by {
        assert x in rest by {
          var p :| 0 <= p < |d| && d[p] == x;
          assert rest[p - 1] == x;
        }
        assert DistinctKeys(rest);
        DeleteRemovesEntry(rest, x);
      }
    }
  }
}
