/**
 * The persistent tier of the byte cache: `DiskCache`. Its core is the
 * metadata index, a dictionary from cache key to `{url, size, cached_at,
 * path}`, kept next to the files it describes. Files are a map from path to
 * contents, the clock is a reading in seconds passed to each operation, and
 * the SHA-256 key derivation is a function fixed when the cache is built.
 */
module DiskTier {
  import opened Common
  import opened OrderedMaps

  /** The first 32 hexadecimal characters of the SHA-256 digest of a URL. */
  type Key = s: string | |s| == 32 witness "00000000000000000000000000000000"

  /** One metadata record; `cachedAt` is the clock reading at which the entry was written. */
  datatype Meta = Meta(url: string, size: nat, cachedAt: int, path: string)

  /** The `_metadata` dictionary, in insertion order. */
  type Index = seq<Item<Key, Meta>>

  /** The index together with the files on disk (path to contents). */
  datatype Store = Store(index: Index, files: map<string, Bytes>)

  /** What a lookup returns and the store it leaves behind. */
  datatype Fetched = Fetched(value: Option<Bytes>, after: Store)

  const SecondsPerDay := 86400
  const BytesPerMb := 1024 * 1024

  /** `_get_cache_path`: files are sharded into sub-directories named by the first two characters of the key. */
  function CachePath(dir: string, key: Key): string
  {
    dir + "/" + key[..2] + "/" + key + ".pdf"
  }

  /** Distinct keys get distinct files under the same directory. */
  lemma CachePathInjective(dir: string, k1: Key, k2: Key)
    ensures CachePath(dir, k1) == CachePath(dir, k2) ==> k1 == k2
  {
    var n := |dir| + 4;
    assert CachePath(dir, k1)[n..n + 32] == k1;
    assert CachePath(dir, k2)[n..n + 32] == k2;
  }

  /** Every indexed entry points at the file its key is stored under. */
  ghost predicate PathsFollowKeys(d: Index, dir: string)
  {
    forall x :: x in d ==> x.value.path == CachePath(dir, x.key)
  }

  /** `sum(m["size"] for m in _metadata.values())`. */
  function IndexedSize(d: Index): nat
  {
    if d == [] then 0 else d[0].value.size + IndexedSize(d[1..])
  }

  /** The files named by a run of index entries. */
  ghost function Paths(d: Index): set<string>
  {
    set x | x in d :: x.value.path
  }

  /** An entry older than the time to live; an entry exactly `ttl` old is still fresh. */
  predicate Expired(m: Meta, now: int, ttl: int)
  {
    now - m.cachedAt > ttl
  }

  /** Entries ordered by `cached_at`, oldest first. */
  predicate OldestFirstOrder(s: Index)
  {
    forall i, j :: 0 <= i < j < |s| ==> s[i].value.cachedAt <= s[j].value.cachedAt
  }

  /** Places `x` before the first entry that is not older than it. */
  function InsertByAge(x: Item<Key, Meta>, s: Index): (r: Index)
    ensures multiset(r) == multiset(s) + multiset{x}
  {
    if s == [] || x.value.cachedAt <= s[0].value.cachedAt then [x] + s
    else
      assert s == [s[0]] + s[1..];
      [s[0]] + InsertByAge(x, s[1..])
  }

  /** Prepending an entry no younger than any other keeps the order. */
  lemma ConsKeepsOrder(h: Item<Key, Meta>, s: Index)
    requires OldestFirstOrder(s)
    requires forall y :: y in s ==> h.value.cachedAt <= y.value.cachedAt
    ensures OldestFirstOrder([h] + s)
  {
    var r := [h] + s;
    forall i, j | 0 <= i < j < |r| ensures r[i].value.cachedAt <= r[j].value.cachedAt {
      assert r[j] == s[j - 1] && r[j] in s;
      assert i > 0 ==> r[i] == s[i - 1];
    }
  }

  lemma {:induction false} InsertKeepsOrder(x: Item<Key, Meta>, s: Index)
    requires OldestFirstOrder(s)
    ensures OldestFirstOrder(InsertByAge(x, s))
  {
    if s == [] || x.value.cachedAt <= s[0].value.cachedAt {
      forall y | y in s ensures x.value.cachedAt <= y.value.cachedAt {
        var p :| 0 <= p < |s| && s[p] == y;
        assert s[0].value.cachedAt <= s[p].value.cachedAt;
      }
      ConsKeepsOrder(x, s);
    } else {
      var rest := InsertByAge(x, s[1..]);
      InsertKeepsOrder(x, s[1..]);
      InsertedEntries(x, s[1..]);
      forall y | y in rest ensures s[0].value.cachedAt <= y.value.cachedAt {
        if y != x {
          var p :| 0 <= p < |s[1..]| && s[1..][p] == y;
          assert s[p + 1] == y;
        }
      }
      ConsKeepsOrder(s[0], rest);
    }
  }

  /** `sorted(_metadata.keys(), key=cached_at)`, as entries: ordered by age and a permutation of the index. */
  function OldestFirst(d: Index): (r: Index)
    ensures OldestFirstOrder(r) && multiset(r) == multiset(d)
  {
    if d == [] then []
    else
      var rest := OldestFirst(d[1..]);
      InsertKeepsOrder(d[0], rest);
      assert d == [d[0]] + d[1..];
      InsertByAge(d[0], rest)
  }

  /** The keys of a run of entries, in order. */
  function KeysOf(s: Index): seq<Key>
  {
    seq(|s|, i requires 0 <= i < |s| => s[i].key)
  }

  /**
   * The eviction loop of `_enforce_size_limit` from turn `i` on, over the keys
   * sorted oldest first: before each key the running total is compared with
   * the budget; a key with an index entry loses it, its file is removed
   * (whether or not the file still exists) and its size leaves the total.
   */
  function EvictKeys(st: Store, keys: seq<Key>, i: nat, total: int, maxSizeBytes: int): Store
    requires i <= |keys|
    decreases |keys| - i, 1
  {
    if i == |keys| || total <= maxSizeBytes then st
    else EvictKeyAt(st, keys, i, total, maxSizeBytes, Lookup(st.index, keys[i]))
  }

  /** One turn of the loop, at key `keys[i]` whose metadata lookup gave `found`. */
  function EvictKeyAt(st: Store, keys: seq<Key>, i: nat, total: int, maxSizeBytes: int, found: Option<Meta>): Store
    requires i < |keys|
    decreases |keys| - i, 0
  {
    match found
    case None => EvictKeys(st, keys, i + 1, total, maxSizeBytes)
    case Some(m) =>
      EvictKeys(Store(Delete(st.index, keys[i]), st.files - {m.path}), keys, i + 1, total - m.size, maxSizeBytes)
  }

  /*
   * The same loop read entry by entry, for when every key is found: the index
   * and the files then evolve in lockstep, each by its own function.
   */

  /** What the eviction loop leaves of the index, from turn `i` on. */
  function EvictIndex(d: Index, order: Index, i: nat, total: int, maxSizeBytes: int): Index
    requires i <= |order|
    decreases |order| - i
  {
    if i == |order| || total <= maxSizeBytes then d
    else EvictIndex(Delete(d, order[i].key), order, i + 1, total - order[i].value.size, maxSizeBytes)
  }

  /** What the eviction loop leaves of the files, from turn `i` on. */
  function EvictFiles(files: map<string, Bytes>, order: Index, i: nat, total: int, maxSizeBytes: int): map<string, Bytes>
    requires i <= |order|
    decreases |order| - i
  {
    if i == |order| || total <= maxSizeBytes then files
    else EvictFiles(files - {order[i].value.path}, order, i + 1, total - order[i].value.size, maxSizeBytes)
  }

  /**
   * Over the keys of index entries in a dictionary order, each key is found
   * with the entry's own metadata, so the loop over keys is the loop over entries.
   */
  lemma {:induction false} EvictKeysFindsEntries(st: Store, order: Index, i: nat, total: int, maxSizeBytes: int)
    requires i <= |order| && DistinctKeys(st.index) && DistinctKeys(order)
    requires forall j :: i <= j < |order| ==> order[j] in st.index
    ensures EvictKeys(st, KeysOf(order), i, total, maxSizeBytes)
      == Store(EvictIndex(st.index, order, i, total, maxSizeBytes), EvictFiles(st.files, order, i, total, maxSizeBytes))
    decreases |order| - i
  {
    if i < |order| && total > maxSizeBytes {
      var x := order[i];
      var keys := KeysOf(order);
      var t := total - x.value.size;
      var next := Store(Delete(st.index, x.key), st.files - {x.value.path});
      assert keys[i] == x.key;
      LookupEntry(st.index, x);
      assert EvictKeys(st, keys, i, total, maxSizeBytes) == EvictKeys(next, keys, i + 1, t, maxSizeBytes);
      DeleteKeepsDistinct(st.index, x.key);
      forall j | i + 1 <= j < |order| ensures order[j] in next.index {
        assert order[j].key != x.key;
      }
      EvictKeysFindsEntries(next, order, i + 1, t, maxSizeBytes);
      assert EvictIndex(st.index, order, i, total, maxSizeBytes) == EvictIndex(next.index, order, i + 1, t, maxSizeBytes);
      assert EvictFiles(st.files, order, i, total, maxSizeBytes) == EvictFiles(next.files, order, i + 1, t, maxSizeBytes);
    }
  }

  /** Running the loop from turn `i` is running it over the entries not yet visited. */
  lemma {:induction false} EvictIndexFrom(d: Index, order: Index, i: nat, total: int, maxSizeBytes: int)
    requires i <= |order|
    ensures EvictIndex(d, order, i, total, maxSizeBytes) == EvictIndex(d, order[i..], 0, total, maxSizeBytes)
    decreases |order| - i
  {
    if i < |order| && total > maxSizeBytes {
      var x := order[i];
      var rest := order[i..];
      assert rest[0] == x && rest[1..] == order[i + 1..];
      EvictIndexFrom(Delete(d, x.key), order, i + 1, total - x.value.size, maxSizeBytes);
      EvictIndexFrom(Delete(d, x.key), rest, 1, total - x.value.size, maxSizeBytes);
    }
  }

  /** The same for the files. */
  lemma {:induction false} EvictFilesFrom(files: map<string, Bytes>, order: Index, i: nat, total: int, maxSizeBytes: int)
    requires i <= |order|
    ensures EvictFiles(files, order, i, total, maxSizeBytes) == EvictFiles(files, order[i..], 0, total, maxSizeBytes)
    decreases |order| - i
  {
    if i < |order| && total > maxSizeBytes {
      var x := order[i];
      var rest := order[i..];
      assert rest[0] == x && rest[1..] == order[i + 1..];
      EvictFilesFrom(files - {x.value.path}, order, i + 1, total - x.value.size, maxSizeBytes);
      EvictFilesFrom(files - {x.value.path}, rest, 1, total - x.value.size, maxSizeBytes);
    }
  }

  /** The first evicting turn, followed by the loop over the remaining entries. */
  lemma EvictIndexUnfold(d: Index, items: Index, total: int, maxSizeBytes: int)
    requires items != [] && total > maxSizeBytes
    ensures EvictIndex(d, items, 0, total, maxSizeBytes)
      == EvictIndex(Delete(d, items[0].key), items[1..], 0, total - items[0].value.size, maxSizeBytes)
  {
    EvictIndexFrom(Delete(d, items[0].key), items, 1, total - items[0].value.size, maxSizeBytes);
  }

  /** The same for the files. */
  lemma EvictFilesUnfold(files: map<string, Bytes>, items: Index, total: int, maxSizeBytes: int)
    requires items != [] && total > maxSizeBytes
    ensures EvictFiles(files, items, 0, total, maxSizeBytes)
      == EvictFiles(files - {items[0].value.path}, items[1..], 0, total - items[0].value.size, maxSizeBytes)
  {
    EvictFilesFrom(files - {items[0].value.path}, items, 1, total - items[0].value.size, maxSizeBytes);
  }

  /**
   * The `for` loop of `_enforce_size_limit` over the keys sorted oldest
   * first, run on the index and the files of the cache.
   */
  method EvictInOrder(index: Index, files: map<string, Bytes>, sortedKeys: seq<Key>, total: int, maxSizeBytes: int)
    returns (metadata: Index, disk: map<string, Bytes>)
    ensures Store(metadata, disk) == EvictKeys(Store(index, files), sortedKeys, 0, total, maxSizeBytes)
  {
    var running := total;
    metadata := index;
    disk := files;
    for i := 0 to |sortedKeys|
      invariant EvictKeys(Store(metadata, disk), sortedKeys, i, running, maxSizeBytes)
        == EvictKeys(Store(index, files), sortedKeys, 0, total, maxSizeBytes)
    {
      if running <= maxSizeBytes {
        break;
      }
      var key := sortedKeys[i];
      var meta := Lookup(metadata, key);
      if meta.Some? {
        disk := disk - {meta.value.path};
        running := running - meta.value.size;
        metadata := Delete(metadata, key);
      }
    }
  }

  /** `_enforce_size_limit`: nothing when within budget, otherwise evict oldest first. */
  function SizeLimited(st: Store, maxSizeBytes: int): Store
  {
    if IndexedSize(st.index) <= maxSizeBytes then st
    else EvictKeys(st, KeysOf(OldestFirst(st.index)), 0, IndexedSize(st.index), maxSizeBytes)
  }


  /** How many entries of `items` the eviction loop gets through before the total is within budget. */
  function EvictedCount(items: Index, total: int, maxSizeBytes: int): (n: nat)
    ensures n <= |items|
  {
    if items == [] || total <= maxSizeBytes then 0
    else 1 + EvictedCount(items[1..], total - items[0].value.size, maxSizeBytes)
  }

  /** How many of the oldest entries `_enforce_size_limit` evicts from `st`. */
  function EvictionCount(st: Store, maxSizeBytes: int): nat
  {
    if IndexedSize(st.index) <= maxSizeBytes then 0
    else EvictedCount(OldestFirst(st.index), IndexedSize(st.index), maxSizeBytes)
  }

  /** The index entry and the file written by `set`. */
  function Written(st: Store, key: Key, meta: Meta, data: Bytes): Store
  {
    Store(Put(st.index, key, meta), st.files[meta.path := data])
  }

  /** `delete`: the file at `path` and the index entry of `key` are gone. */
  function Removed(st: Store, key: Key, path: string): Store
  {
    Store(Delete(st.index, key), st.files - {path})
  }

  /**
   * `get`: a missing file is a miss that changes nothing; an expired entry is
   * a miss that deletes it; a file without an index entry is returned unchecked.
   */
  function Fetch(st: Store, key: Key, path: string, now: int, ttl: int): Fetched
  {
    if path !in st.files then Fetched(None, st)
    else
      match Lookup(st.index, key)
      case Some(m) =>
        if Expired(m, now, ttl) then Fetched(None, Removed(st, key, path))
        else Fetched(Some(st.files[path]), st)
      case None => Fetched(Some(st.files[path]), st)
  }

  lemma {:induction false} IndexedSizeDelete(d: Index, k: Key)
    requires DistinctKeys(d)
    ensures IndexedSize(Delete(d, k)) == IndexedSize(d) - (if k in KeySet(d) then Lookup(d, k).value.size else 0)
  {
    if d != [] {
      DistinctHead(d);
      assert DistinctKeys(d[1..]);
      IndexedSizeDelete(d[1..], k);
      if d[0].key == k {
        DistinctLookup(d, k);
      } else {
        assert ([d[0]] + Delete(d[1..], k))[1..] == Delete(d[1..], k);
        assert k in KeySet(d) <==> k in KeySet(d[1..]);
        if k in KeySet(d) {
          DistinctLookup(d, k);
          DistinctLookup(d[1..], k);
        }
      }
    }
  }

  /** The first `m + 1` entries weigh the first entry plus the next `m`. */
  lemma PrefixSize(items: Index, m: nat)
    requires m < |items|
    ensures IndexedSize(items[..m + 1]) == items[0].value.size + IndexedSize(items[1..][..m])
  {
    assert items[..m + 1][1..] == items[1..][..m];
  }

  /** Evicting nothing leaves the index as it is. */
  lemma {:induction false} WithoutNothing(d: Index)
    ensures Without(d, {}) == d
  {
    if d != [] {
      WithoutNothing(d[1..]);
    }
  }

  /**
   * The loop stops at the first prefix after which the running total is
   * within budget: every shorter prefix left it over budget.
   */
  lemma {:induction false} EvictedCountBounds(items: Index, total: int, maxSizeBytes: int)
    ensures var n := EvictedCount(items, total, maxSizeBytes);
      && n <= |items|
      && (n < |items| ==> total - IndexedSize(items[..n]) <= maxSizeBytes)
      && (forall m :: 0 <= m < n ==> total - IndexedSize(items[..m]) > maxSizeBytes)
  {
    var n := EvictedCount(items, total, maxSizeBytes);
    if items != [] && total > maxSizeBytes {
      var rest := items[1..];
      var t := total - items[0].value.size;
      EvictedCountBounds(rest, t, maxSizeBytes);
      assert n == 1 + EvictedCount(rest, t, maxSizeBytes);
      PrefixSize(items, n - 1);
      forall m | 0 <= m < n ensures total - IndexedSize(items[..m]) > maxSizeBytes {
        if m > 0 {
          PrefixSize(items, m - 1);
        }
      }
    }
  }

  /** One turn of the loop over index entries: the rest of the entries still lie in the index. */
  lemma EvictStep(d: Index, items: Index)
    requires DistinctKeys(d) && DistinctKeys(items) && items != []
    requires forall x :: x in items ==> x in d
    ensures DistinctKeys(items[1..])
    ensures forall y :: y in items[1..] ==> y in Delete(d, items[0].key)
  {
    DistinctHead(items);
    SuffixOfDictionary(items, 1);
    forall y | y in items[1..] ensures y.key != items[0].key {
      assert y.key in KeySet(items[1..]);
    }
  }

  /** The keys and files of a non-empty prefix are those of its head and of the rest. */
  lemma PrefixSplit(items: Index, m: nat)
    requires m < |items|
    ensures KeySet(items[..m + 1]) == KeySet(items[1..][..m]) + {items[0].key}
    ensures Paths(items[..m + 1]) == {items[0].value.path} + Paths(items[1..][..m])
  {
    assert items[..m + 1] == [items[0]] + items[1..][..m];
  }

  /** Run over any entries, the loop deletes exactly the first `EvictedCount` of their keys from the index. */
  lemma {:induction false} EvictIndexRemovesPrefix(d: Index, items: Index, total: int, maxSizeBytes: int)
    ensures EvictIndex(d, items, 0, total, maxSizeBytes)
      == Without(d, KeySet(items[..EvictedCount(items, total, maxSizeBytes)]))
    decreases |items|
  {
    var n := EvictedCount(items, total, maxSizeBytes);
    if items == [] || total <= maxSizeBytes {
      assert KeySet(items[..n]) == {} by {
        assert items[..n] == [];
      }
      WithoutNothing(d);
    } else {
      var x := items[0];
      var t := total - x.value.size;
      assert n - 1 == EvictedCount(items[1..], t, maxSizeBytes);
      EvictIndexUnfold(d, items, total, maxSizeBytes);
      EvictIndexRemovesPrefix(Delete(d, x.key), items[1..], t, maxSizeBytes);
      PrefixSplit(items, n - 1);
      WithoutAfterDelete(d, x.key, KeySet(items[1..][..n - 1]));
    }
  }

  /** ... and removes exactly the files of those entries. */
  lemma {:induction false} EvictFilesRemovesPrefix(files: map<string, Bytes>, items: Index, total: int, maxSizeBytes: int)
    ensures EvictFiles(files, items, 0, total, maxSizeBytes)
      == files - Paths(items[..EvictedCount(items, total, maxSizeBytes)])
    decreases |items|
  {
    var n := EvictedCount(items, total, maxSizeBytes);
    if items == [] || total <= maxSizeBytes {
      assert Paths(items[..n]) == {} by {
        assert items[..n] == [];
      }
    } else {
      var x := items[0];
      EvictFilesUnfold(files, items, total, maxSizeBytes);
      EvictFilesRemovesPrefix(files - {x.value.path}, items[1..], total - x.value.size, maxSizeBytes);
      PrefixSplit(items, n - 1);
      assert files - {x.value.path} - Paths(items[1..][..n - 1]) == files - Paths(items[..n]);
    }
  }

  /** While the running total is the indexed size, it stays the indexed size of what is left. */
  lemma {:induction false} EvictIndexSize(d: Index, items: Index, total: int, maxSizeBytes: int)
    requires DistinctKeys(d) && DistinctKeys(items)
    requires forall x :: x in items ==> x in d
    requires total == IndexedSize(d)
    ensures IndexedSize(EvictIndex(d, items, 0, total, maxSizeBytes))
      == total - IndexedSize(items[..EvictedCount(items, total, maxSizeBytes)])
    decreases |items|
  {
    if items != [] && total > maxSizeBytes {
      var x := items[0];
      var rest := Delete(d, x.key);
      var t := total - x.value.size;
      var n := EvictedCount(items, total, maxSizeBytes);
      assert n - 1 == EvictedCount(items[1..], t, maxSizeBytes);
      EvictStep(d, items);
      DeleteKeepsDistinct(d, x.key);
      LookupEntry(d, x);
      DeleteKeySet(d, x.key);
      IndexedSizeDelete(d, x.key);
      assert IndexedSize(rest) == t;
      EvictIndexUnfold(d, items, total, maxSizeBytes);
      EvictIndexSize(rest, items[1..], t, maxSizeBytes);
      PrefixSize(items, n - 1);
      assert IndexedSize(items[..n]) == x.value.size + IndexedSize(items[1..][..n - 1]);
    } else {
      assert items[..EvictedCount(items, total, maxSizeBytes)] == [];
    }
  }

  /** Every key being deleted leaves nothing. */
  lemma {:induction false} WithoutAll(d: Index, ks: set<Key>)
    requires forall x :: x in d ==> x.key in ks
    ensures Without(d, ks) == []
  {
    if d != [] {
      assert d[0] in d;
      WithoutAll(d[1..], ks);
    }
  }

  /** The entries of `InsertByAge(x, s)` are `x` and those of `s`. */
  lemma InsertedEntries(x: Item<Key, Meta>, s: Index)
    ensures forall y :: y in InsertByAge(x, s) <==> y == x || y in s
  {
    var r := InsertByAge(x, s);
    forall y ensures y in r <==> y == x || y in s {
      assert y in r <==> y in multiset(r);
      assert y in s <==> y in multiset(s);
    }
  }

  /** The keys of `InsertByAge(x, s)` are `x`'s and those of `s`. */
  lemma InsertedKeys(x: Item<Key, Meta>, s: Index)
    ensures KeySet(InsertByAge(x, s)) == KeySet(s) + {x.key}
  {
    InsertedEntries(x, s);
  }

  /** Prepending an entry with a new key keeps a dictionary a dictionary. */
  lemma ConsKeepsDistinct(h: Item<Key, Meta>, s: Index)
    requires DistinctKeys(s) && h.key !in KeySet(s)
    ensures DistinctKeys([h] + s)
  {
    var r := [h] + s;
    forall i, j | 0 <= i < j < |r| ensures r[i].key != r[j].key {
      assert r[j] == s[j - 1] && s[j - 1] in s;
      assert i > 0 ==> r[i] == s[i - 1];
    }
  }

  /** Inserting a new key into a dictionary keeps it a dictionary. */
  lemma {:induction false} InsertKeepsDistinct(x: Item<Key, Meta>, s: Index)
    requires DistinctKeys(s) && x.key !in KeySet(s)
    ensures DistinctKeys(InsertByAge(x, s))
  {
    if s == [] || x.value.cachedAt <= s[0].value.cachedAt {
      ConsKeepsDistinct(x, s);
    } else {
      var rest := InsertByAge(x, s[1..]);
      DistinctHead(s);
      SuffixOfDictionary(s, 1);
      InsertKeepsDistinct(x, s[1..]);
      InsertedKeys(x, s[1..]);
      assert s[0] in s;
      ConsKeepsDistinct(s[0], rest);
    }
  }

  /** The oldest-first order of a dictionary is a dictionary holding the same entries. */
  lemma {:induction false} OldestFirstSameEntries(d: Index)
    requires DistinctKeys(d)
    ensures DistinctKeys(OldestFirst(d))
    ensures forall x :: x in OldestFirst(d) <==> x in d
  {
    var r := OldestFirst(d);
    forall x ensures x in r <==> x in d {
      assert x in r <==> x in multiset(r);
      assert x in d <==> x in multiset(d);
    }
    if d != [] {
      var rest := OldestFirst(d[1..]);
      DistinctHead(d);
      SuffixOfDictionary(d, 1);
      OldestFirstSameEntries(d[1..]);
      assert d[0].key !in KeySet(rest);
      InsertKeepsDistinct(d[0], rest);
    }
  }

  /** Over budget, `_enforce_size_limit` finds every sorted key, so it runs entry by entry. */
  lemma SizeLimitedByEntries(st: Store, maxSizeBytes: int)
    requires DistinctKeys(st.index) && IndexedSize(st.index) > maxSizeBytes
    ensures var order := OldestFirst(st.index);
      var total := IndexedSize(st.index);
      SizeLimited(st, maxSizeBytes)
        == Store(EvictIndex(st.index, order, 0, total, maxSizeBytes), EvictFiles(st.files, order, 0, total, maxSizeBytes))
  {
    OldestFirstSameEntries(st.index);
    EvictKeysFindsEntries(st, OldestFirst(st.index), 0, IndexedSize(st.index), maxSizeBytes);
  }

  /**
   * `_enforce_size_limit` evicts a prefix of the oldest-first order: the
   * index loses exactly the keys of that prefix and the disk exactly its files.
   */
  lemma SizeLimitedEvictsPrefix(st: Store, maxSizeBytes: int)
    requires DistinctKeys(st.index)
    ensures var order := OldestFirst(st.index);
      var n := EvictionCount(st, maxSizeBytes);
      var r := SizeLimited(st, maxSizeBytes);
      && n <= |order|
      && r.index == Without(st.index, KeySet(order[..n]))
      && r.files == st.files - Paths(order[..n])
  {
    var order := OldestFirst(st.index);
    var n := EvictionCount(st, maxSizeBytes);
    var total := IndexedSize(st.index);
    OldestFirstSameEntries(st.index);
    if total <= maxSizeBytes {
      assert order[..n] == [];
      assert KeySet(order[..n]) == {} && Paths(order[..n]) == {};
      WithoutNothing(st.index);
    } else {
      assert n == EvictedCount(order, total, maxSizeBytes);
      SizeLimitedByEntries(st, maxSizeBytes);
      EvictIndexRemovesPrefix(st.index, order, total, maxSizeBytes);
      EvictFilesRemovesPrefix(st.files, order, total, maxSizeBytes);
    }
  }

  /** The entries `_enforce_size_limit` keeps stay in their order in the index. */
  lemma SizeLimitedKeepsOrder(st: Store, maxSizeBytes: int)
    requires DistinctKeys(st.index)
    ensures IsSubsequence(SizeLimited(st, maxSizeBytes).index, st.index)
  {
    SizeLimitedEvictsPrefix(st, maxSizeBytes);
    WithoutKeepsOrder(st.index, KeySet(OldestFirst(st.index)[..EvictionCount(st, maxSizeBytes)]));
  }

  /** The result of `_enforce_size_limit` is within budget unless everything was evicted. */
  lemma SizeLimitedWithinBudget(st: Store, maxSizeBytes: int)
    requires DistinctKeys(st.index)
    ensures var r := SizeLimited(st, maxSizeBytes);
      IndexedSize(r.index) <= maxSizeBytes || r.index == []
  {
    var order := OldestFirst(st.index);
    var n := EvictionCount(st, maxSizeBytes);
    var total := IndexedSize(st.index);
    if total > maxSizeBytes {
      assert n == EvictedCount(order, total, maxSizeBytes);
      OldestFirstSameEntries(st.index);
      SizeLimitedByEntries(st, maxSizeBytes);
      EvictIndexSize(st.index, order, total, maxSizeBytes);
      EvictedCountBounds(order, total, maxSizeBytes);
      if n == |order| {
        assert order[..n] == order;
        SizeLimitedEvictsPrefix(st, maxSizeBytes);
        WithoutAll(st.index, KeySet(order));
      }
    }
  }

  /**
   * `_enforce_size_limit` stops as soon as the total is within budget: each
   * shorter prefix of the oldest-first order would have left it over budget.
   */
  lemma SizeLimitedEvictsNoMore(st: Store, maxSizeBytes: int)
    ensures var order := OldestFirst(st.index);
      var n := EvictionCount(st, maxSizeBytes);
      forall m :: 0 <= m < n ==> IndexedSize(st.index) - IndexedSize(order[..m]) > maxSizeBytes
  {
    var total := IndexedSize(st.index);
    if total > maxSizeBytes {
      EvictedCountBounds(OldestFirst(st.index), total, maxSizeBytes);
    }
  }

  /** Every entry `_enforce_size_limit` evicts is at least as old as every entry it keeps. */
  lemma SizeLimitedEvictsOldest(st: Store, maxSizeBytes: int)
    requires DistinctKeys(st.index)
    ensures var order := OldestFirst(st.index);
      var n := EvictionCount(st, maxSizeBytes);
      var r := SizeLimited(st, maxSizeBytes);
      forall x, y :: x in order[..n] && y in r.index ==> x.value.cachedAt <= y.value.cachedAt
  {
    var order := OldestFirst(st.index);
    var n := EvictionCount(st, maxSizeBytes);
    var r := SizeLimited(st, maxSizeBytes);
    SizeLimitedEvictsPrefix(st, maxSizeBytes);
    OldestFirstSameEntries(st.index);
    var evicted := order[..n];
    forall x, y | x in evicted && y in r.index ensures x.value.cachedAt <= y.value.cachedAt {
      var i :| 0 <= i < n && order[i] == x;
      var j :| 0 <= j < |order| && order[j] == y;
      assert j < n ==> y in evicted;
    }
  }

  /**
   * While every entry points at its own key's file, the entries that survive
   * `_enforce_size_limit` keep their files and contents.
   */
  lemma SizeLimitedKeepsSurvivorFiles(st: Store, dir: string, maxSizeBytes: int)
    requires DistinctKeys(st.index) && PathsFollowKeys(st.index, dir)
    ensures var r := SizeLimited(st, maxSizeBytes);
      forall y :: y in r.index ==>
        && y in st.index
        && (y.value.path in st.files ==> y.value.path in r.files && r.files[y.value.path] == st.files[y.value.path])
  {
    var order := OldestFirst(st.index);
    var n := EvictionCount(st, maxSizeBytes);
    var r := SizeLimited(st, maxSizeBytes);
    var evicted := order[..n];
    SizeLimitedEvictsPrefix(st, maxSizeBytes);
    OldestFirstSameEntries(st.index);
    forall y | y in r.index ensures y.value.path !in Paths(evicted) {
      forall x | x in evicted ensures x.value.path != y.value.path {
        assert x in st.index && x.key in KeySet(evicted);
        CachePathInjective(dir, x.key, y.key);
      }
    }
  }

  /** `set` leaves a dictionary holding the new entry, whose file holds the data. */
  lemma WrittenHoldsEntry(st: Store, dir: string, key: Key, meta: Meta, data: Bytes)
    requires DistinctKeys(st.index) && PathsFollowKeys(st.index, dir)
    requires meta.path == CachePath(dir, key)
    ensures var w := Written(st, key, meta, data);
      && DistinctKeys(w.index) && PathsFollowKeys(w.index, dir)
      && Item(key, meta) in w.index
      && meta.path in w.files && w.files[meta.path] == data
  {
    var w := Written(st, key, meta, data);
    PutEntries(st.index, key, meta);
  }

  /**
   * A URL just stored can be read back until its time to live runs out,
   * unless the size limit evicted it.
   */
  lemma SetThenFetch(st: Store, dir: string, key: Key, url: string, data: Bytes, now: int,
                     later: int, ttl: int, maxSizeBytes: int)
    requires DistinctKeys(st.index) && PathsFollowKeys(st.index, dir)
    requires later - now <= ttl
    ensures var meta := Meta(url, |data|, now, CachePath(dir, key));
      var r := SizeLimited(Written(st, key, meta, data), maxSizeBytes);
      key in KeySet(r.index) ==> Fetch(r, key, CachePath(dir, key), later, ttl) == Fetched(Some(data), r)
  {
    var meta := Meta(url, |data|, now, CachePath(dir, key));
    var w := Written(st, key, meta, data);
    var r := SizeLimited(w, maxSizeBytes);
    WrittenHoldsEntry(st, dir, key, meta, data);
    SizeLimitedKeepsSurvivorFiles(w, dir, maxSizeBytes);
    if key in KeySet(r.index) {
      var y :| y in r.index && y.key == key;
      DistinctLookup(w.index, key);
      assert y == Item(key, meta);
      SizeLimitedEvictsPrefix(w, maxSizeBytes);
      DistinctLookup(r.index, key);
    }
  }

  /** Deleting twice is deleting once. */
  lemma RemovedIdempotent(st: Store, key: Key, path: string)
    ensures Removed(Removed(st, key, path), key, path) == Removed(st, key, path)
  {
    DeleteIdempotent(st.index, key);
  }

  /** Where the cache lives when no directory is given. */
  function DefaultCacheDir(home: string): string
  {
    home + "/.cache/yoktez-mcp"
  }

  class DiskCache {
    /** False when the asynchronous file library is missing: every operation is then a no-op. */
    const enabled: bool
    const cacheDir: string
    const maxSizeBytes: int
    const ttlSeconds: int
    /** `_get_cache_key`: the truncated SHA-256 hex digest of a URL. */
    const digest: string -> Key
    /** The `_metadata` dictionary. */
    var index: Index
    /** The files on disk, by path. */
    var files: map<string, Bytes>

    ghost predicate Valid()
      reads this
    {
      DistinctKeys(index) && (!enabled ==> index == [])
    }

    function State(): Store
      reads this
    {
      Store(index, files)
    }

    /**
     * `__init__`: a disabled cache keeps no index; an enabled one starts from
     * the persisted metadata, or from nothing when it is missing or unreadable.
     */
    constructor (aiofilesAvailable: bool, cacheDir: Option<string>, home: string, maxSizeMb: int, ttlDays: int,
                 digest: string -> Key, persisted: Option<Index>, disk: map<string, Bytes>)
      requires persisted.Some? ==> DistinctKeys(persisted.value)
      ensures Valid() && enabled == aiofilesAvailable && this.digest == digest && files == disk
      ensures !enabled ==> index == []
      ensures enabled ==>
        && this.cacheDir == (if cacheDir.Some? then cacheDir.value else DefaultCacheDir(home))
        && maxSizeBytes == maxSizeMb * BytesPerMb
        && ttlSeconds == ttlDays * SecondsPerDay
        && index == (if persisted.Some? then persisted.value else [])
    {
      enabled := aiofilesAvailable;
      this.digest := digest;
      files := disk;
      if !aiofilesAvailable {
        this.cacheDir := "";
        maxSizeBytes := 0;
        ttlSeconds := 0;
        index := [];
      } else {
        this.cacheDir := if cacheDir.Some? then cacheDir.value else DefaultCacheDir(home);
        maxSizeBytes := maxSizeMb * BytesPerMb;
        ttlSeconds := ttlDays * SecondsPerDay;
        index := if persisted.Some? then persisted.value else [];
      }
    }

    /** `get`: the file for the URL, unless it is missing or its entry has expired (which deletes it). */
    method Get(url: string, now: int) returns (r: Option<Bytes>)
      requires Valid()
      modifies this
      ensures Valid()
      ensures !enabled ==> r == None && index == old(index) && files == old(files)
      ensures enabled ==>
        var f := Fetch(old(State()), digest(url), CachePath(cacheDir, digest(url)), now, ttlSeconds);
        r == f.value && State() == f.after
    {
      if !enabled {
        return None;
      }
      var key := digest(url);
      var path := CachePath(cacheDir, key);
      if path !in files {
        return None;
      }
      var meta := Lookup(index, key);
      if meta.Some? && Expired(meta.value, now, ttlSeconds) {
        Delete(url);
        return None;
      }
      return Some(files[path]);
    }

    /** `set`: write the file, record its entry stamped `now`, then enforce the size limit. */
    method Set(url: string, data: Bytes, now: int)
      requires Valid()
      modifies this
      ensures Valid()
      ensures !enabled ==> index == old(index) && files == old(files)
      ensures enabled ==>
        var key := digest(url);
        var path := CachePath(cacheDir, key);
        State() == SizeLimited(Written(old(State()), key, Meta(url, |data|, now, path), data), maxSizeBytes)
    {
      if !enabled {
        return;
      }
      var key := digest(url);
      var path := CachePath(cacheDir, key);
      files := files[path := data];
      index := Put(index, key, Meta(url, |data|, now, path));
      EnforceSizeLimit();
    }

    /** `delete`: remove the URL's file if present and its entry if present. */
    method Delete(url: string)
      requires Valid()
      modifies this
      ensures Valid()
      ensures !enabled ==> index == old(index) && files == old(files)
      ensures enabled ==> State() == Removed(old(State()), digest(url), CachePath(cacheDir, digest(url)))
    {
      if !enabled {
        return;
      }
      var key := digest(url);
      var path := CachePath(cacheDir, key);
      if path in files {
        files := files - {path};
      }
      if IndexOf(index, key) >= 0 {
        DeleteKeepsDistinct(index, key);
        index := OrderedMaps.Delete(index, key);
      } else {
        DeleteAbsent(index, key);
      }
    }

    /** `_enforce_size_limit`: evict the oldest entries while the indexed total exceeds the budget. */
    method EnforceSizeLimit()
      requires Valid()
      modifies this
      ensures Valid()
      ensures !enabled ==> index == old(index) && files == old(files)
      ensures enabled ==> State() == SizeLimited(old(State()), maxSizeBytes)
    {
      if !enabled {
        return;
      }
      var total := IndexedSize(index);
      if total <= maxSizeBytes {
        return;
      }
      SizeLimitedEvictsPrefix(State(), maxSizeBytes);
      var sortedKeys := KeysOf(OldestFirst(index));
      index, files := EvictInOrder(index, files, sortedKeys, total, maxSizeBytes);
    }

    /** `clear`: remove the file of every indexed entry, then forget the index. */
    method Clear()
      requires Valid()
      modifies this
      ensures Valid()
      ensures !enabled ==> index == old(index) && files == old(files)
      ensures enabled ==> index == [] && files == old(files) - Paths(old(index))
    {
      if !enabled {
        return;
      }
      var entries := index;
      for i := 0 to |entries|
        invariant files == old(files) - Paths(entries[..i])
      {
        assert entries[..i + 1] == entries[..i] + [entries[i]];
        files := files - {entries[i].value.path};
      }
      assert entries[..|entries|] == entries;
      index := [];
    }
  }
}
