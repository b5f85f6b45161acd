/**
 * The in-process tier of the byte cache: `LRUMemoryCache`, an ordered map
 * from key to payload kept least recently used first, bounded by an item cap
 * and a byte budget.
 */
module MemoryTier {
  import opened Common
  import opened OrderedMaps

  /** The contents of the `OrderedDict`, least recently used first. */
  type Entries = seq<Item<string, Bytes>>

  /** Sum of the lengths of the stored values. */
  function TotalSize(c: Entries): nat
  {
    if c == [] then 0 else |c[0].value| + TotalSize(c[1..])
  }

  /** The condition of the eviction loop: over the byte budget once the new value is added, or at the item cap. */
  predicate OverBudget(c: Entries, incoming: nat, maxItems: int, maxSizeBytes: int)
  {
    TotalSize(c) + incoming > maxSizeBytes || |c| >= maxItems
  }

  /**
   * What the eviction loop of `set` leaves: entries are popped from the least
   * recently used end while the cache is over budget and not empty.
   */
  function Evict(c: Entries, incoming: nat, maxItems: int, maxSizeBytes: int): (r: Entries)
    ensures |r| <= |c| && r == c[|c| - |r|..]
    ensures r == [] || !OverBudget(r, incoming, maxItems, maxSizeBytes)
    decreases |c|
  {
    if c != [] && OverBudget(c, incoming, maxItems, maxSizeBytes) then
      var r := Evict(c[1..], incoming, maxItems, maxSizeBytes);
      assert c[1..][|c| - 1 - |r|..] == c[|c| - |r|..];
      r
    else c
  }

  /** The entries after `set(key, value)`: the old entry replaced, the loop run, the new entry appended. */
  function AfterSet(c: Entries, key: string, value: Bytes, maxItems: int, maxSizeBytes: int): Entries
  {
    Evict(Delete(c, key), |value|, maxItems, maxSizeBytes) + [Item(key, value)]
  }

  lemma {:induction false} TotalSizeAppend(c: Entries, x: Item<string, Bytes>)
    ensures TotalSize(c + [x]) == TotalSize(c) + |x.value|
  {
    if c != [] {
      assert (c + [x])[1..] == c[1..] + [x];
      TotalSizeAppend(c[1..], x);
    }
  }

  /** Removing a key subtracts exactly the size of its value. */
  lemma {:induction false} TotalSizeDelete(c: Entries, k: string)
    requires DistinctKeys(c)
    ensures TotalSize(Delete(c, k)) == TotalSize(c) - (if k in KeySet(c) then |Lookup(c, k).value| else 0)
  {
    if c != [] {
      DistinctHead(c);
      assert DistinctKeys(c[1..]);
      TotalSizeDelete(c[1..], k);
      if c[0].key == k {
        DistinctLookup(c, k);
      } else {
        assert ([c[0]] + Delete(c[1..], k))[1..] == Delete(c[1..], k);
        assert k in KeySet(c) <==> k in KeySet(c[1..]);
        if k in KeySet(c) {
          DistinctLookup(c, k);
          DistinctLookup(c[1..], k);
        }
      }
    }
  }

  /** A cache hit only reorders: same items, same keys, same total size. */
  lemma MoveToEndOnlyReorders(c: Entries, k: string)
    requires DistinctKeys(c) && k in KeySet(c)
    ensures multiset(MoveToEnd(c, k)) == multiset(c)
    ensures DistinctKeys(MoveToEnd(c, k)) && KeySet(MoveToEnd(c, k)) == KeySet(c)
    ensures TotalSize(MoveToEnd(c, k)) == TotalSize(c)
    ensures Lookup(MoveToEnd(c, k), k) == Lookup(c, k)
  {
    var v := Lookup(c, k).value;
    DeleteKeySet(c, k);
    DeleteKeepsDistinct(c, k);
    DeleteRemovesEntry(c, Item(k, v));
    TotalSizeDelete(c, k);
    TotalSizeAppend(Delete(c, k), Item(k, v));
    AppendKeepsOthers(Delete(c, k), Item(k, v));
  }

  /** The eviction loop stops at the first suffix that is within budget: every longer suffix was over it. */
  lemma {:induction false} EvictOnlyWhatIsNeeded(c: Entries, incoming: nat, maxItems: int, maxSizeBytes: int, j: nat)
    requires j < |c| - |Evict(c, incoming, maxItems, maxSizeBytes)|
    ensures OverBudget(c[j..], incoming, maxItems, maxSizeBytes)
    decreases j
  {
    if j > 0 {
      EvictOnlyWhatIsNeeded(c[1..], incoming, maxItems, maxSizeBytes, j - 1);
      assert c[1..][j - 1..] == c[j..];
    }
  }

  /**
   * After `set(key, value)`: the key maps to the value and is the most
   * recently used entry, at most max(maxItems, 1) entries remain, and the
   * total is within the byte budget unless the new value is the only entry.
   */
  lemma SetKeepsBounds(c: Entries, key: string, value: Bytes, maxItems: int, maxSizeBytes: int)
    requires DistinctKeys(c)
    ensures var r := AfterSet(c, key, value, maxItems, maxSizeBytes);
      && DistinctKeys(r)
      && Lookup(r, key) == Some(value)
      && r[|r| - 1] == Item(key, value)
      && |r| <= Max(maxItems, 1)
      && (TotalSize(r) <= maxSizeBytes || |r| == 1)
  {
    var d := Delete(c, key);
    var e := Evict(d, |value|, maxItems, maxSizeBytes);
    DeleteKeySet(c, key);
    DeleteKeepsDistinct(c, key);
    SuffixOfDictionary(d, |d| - |e|);
    AppendKeepsOthers(e, Item(key, value));
    TotalSizeAppend(e, Item(key, value));
  }

  class LRUMemoryCache {
    /** The `OrderedDict`, least recently used first. */
    var entries: Entries
    /** The running byte counter `_current_size_bytes`. */
    var currentSizeBytes: int
    const maxItems: int
    const maxSizeBytes: int

    ghost predicate Valid()
      reads this
    {
      DistinctKeys(entries) && currentSizeBytes == TotalSize(entries)
    }

    constructor (maxItems: int, maxSizeMb: int)
      ensures Valid() && entries == []
      ensures this.maxItems == maxItems && maxSizeBytes == maxSizeMb * 1024 * 1024
    {
      entries := [];
      this.maxItems := maxItems;
      maxSizeBytes := maxSizeMb * 1024 * 1024;
      currentSizeBytes := 0;
    }

    /** `get`: a hit moves the key to the most recently used end; a miss changes nothing. */
    method Get(key: string) returns (r: Option<Bytes>)
      requires Valid()
      modifies this
      ensures Valid()
      ensures r == Lookup(old(entries), key)
      ensures entries == if r.Some? then MoveToEnd(old(entries), key) else old(entries)
      ensures multiset(entries) == multiset(old(entries)) && currentSizeBytes == old(currentSizeBytes)
    {
      if IndexOf(entries, key) < 0 {
        return None;
      }
      MoveToEndOnlyReorders(entries, key);
      var value := Lookup(entries, key).value;
      entries := MoveToEnd(entries, key);
      return Some(value);
    }

    /** `set`: replace, evict from the least recently used end while over budget, append. */
    method Set(key: string, value: Bytes)
      requires Valid()
      modifies this
      ensures Valid()
      ensures entries == AfterSet(old(entries), key, value, maxItems, maxSizeBytes)
      ensures Lookup(entries, key) == Some(value) && entries[|entries| - 1] == Item(key, value)
      ensures |entries| <= Max(maxItems, 1)
      ensures currentSizeBytes <= maxSizeBytes || |entries| == 1
    {
      ghost var original := entries;
      var valueSize := |value|;
      if IndexOf(entries, key) >= 0 {
        TotalSizeDelete(entries, key);
        currentSizeBytes := currentSizeBytes - |Lookup(entries, key).value|;
        entries := Delete(entries, key);
      } else {
        DeleteAbsent(entries, key);
      }
      assert entries == Delete(original, key);
      EvictFor(valueSize);
      TotalSizeAppend(entries, Item(key, value));
      entries := entries + [Item(key, value)];
      currentSizeBytes := currentSizeBytes + valueSize;
      SetKeepsBounds(original, key, value, maxItems, maxSizeBytes);
    }

    /** The eviction loop of `set`: pop the least recently used entry while over budget. */
    method EvictFor(valueSize: nat)
      requires currentSizeBytes == TotalSize(entries)
      modifies this
      ensures entries == Evict(old(entries), valueSize, maxItems, maxSizeBytes)
      ensures currentSizeBytes == TotalSize(entries)
    {
      ghost var remaining := entries;
      while currentSizeBytes + valueSize > maxSizeBytes || |entries| >= maxItems
        invariant currentSizeBytes == TotalSize(entries)
        invariant Evict(entries, valueSize, maxItems, maxSizeBytes) == Evict(remaining, valueSize, maxItems, maxSizeBytes)
        decreases |entries|
      {
        if entries == [] {
          break;
        }
        assert OverBudget(entries, valueSize, maxItems, maxSizeBytes);
        currentSizeBytes := currentSizeBytes - |entries[0].value|;
        entries := entries[1..];
      }
      assert entries == [] || !OverBudget(entries, valueSize, maxItems, maxSizeBytes);
    }

    /** `has`: membership in the ordered map, without touching the order. */
    function Has(key: string): (r: bool)
      reads this
      ensures r <==> key in KeySet(entries)
    {
      IndexOf(entries, key) >= 0
    }

    method Clear()
      modifies this
      ensures Valid() && entries == []
    {
      entries := [];
      currentSizeBytes := 0;
    }
  }
}
