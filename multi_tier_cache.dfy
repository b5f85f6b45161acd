/**
 * `MultiTierCache`: the memory tier (L1) in front of the optional disk tier
 * (L2). Reads fall through from L1 to L2 and promote L2 hits into L1; writes
 * go to both tiers.
 */
module TieredCache {
  import opened Common
  import opened OrderedMaps
  import opened MemoryTier
  import opened DiskTier

  class MultiTierCache {
    const memory: LRUMemoryCache
    /** `None` in the source when disk caching is switched off or the file library is missing. */
    const disk: DiskCache?

    ghost predicate Valid()
      reads this, memory, disk
    {
      memory.Valid() && (disk != null ==> disk.Valid() && disk.enabled)
    }

    /** `__init__`: the disk tier exists only when it is asked for and the file library is present. */
    constructor (memoryMaxItems: int, memoryMaxSizeMb: int, diskCacheDir: Option<string>, home: string,
                 diskMaxSizeMb: int, diskTtlDays: int, enableDiskCache: bool, aiofilesAvailable: bool,
                 digest: string -> Key, persisted: Option<Index>, diskFiles: map<string, Bytes>)
      requires persisted.Some? ==> DistinctKeys(persisted.value)
      ensures Valid() && fresh(memory)
      ensures memory.entries == [] && memory.maxItems == memoryMaxItems
      ensures memory.maxSizeBytes == memoryMaxSizeMb * 1024 * 1024
      ensures (disk != null) == (enableDiskCache && aiofilesAvailable)
      ensures disk != null ==>
        && fresh(disk) && disk.maxSizeBytes == diskMaxSizeMb * BytesPerMb
        && disk.ttlSeconds == diskTtlDays * SecondsPerDay && disk.digest == digest
        && disk.index == (if persisted.Some? then persisted.value else []) && disk.files == diskFiles
    {
      memory := new LRUMemoryCache(memoryMaxItems, memoryMaxSizeMb);
      if enableDiskCache && aiofilesAvailable {
        disk := new DiskCache(aiofilesAvailable, diskCacheDir, home, diskMaxSizeMb, diskTtlDays,
                              digest, persisted, diskFiles);
      } else {
        disk := null;
      }
    }

    /**
     * `get`: an L1 hit is returned and L2 is not consulted; otherwise the L2
     * answer is returned and, when it is a hit, stored in L1.
     */
    method Get(key: string, now: int) returns (r: Option<Bytes>)
      requires Valid()
      modifies memory, disk
      ensures Valid()
      ensures Lookup(old(memory.entries), key).Some? ==>
        && r == Lookup(old(memory.entries), key)
        && memory.entries == MoveToEnd(old(memory.entries), key)
        && (disk != null ==> disk.State() == old(disk.State()))
      ensures Lookup(old(memory.entries), key).None? && disk == null ==>
        r == None && memory.entries == old(memory.entries)
      ensures Lookup(old(memory.entries), key).None? && disk != null ==>
        var f := Fetch(old(disk.State()), disk.digest(key), CachePath(disk.cacheDir, disk.digest(key)), now, disk.ttlSeconds);
        && r == f.value && disk.State() == f.after
        && memory.entries == (if r.Some? then AfterSet(old(memory.entries), key, r.value, memory.maxItems, memory.maxSizeBytes)
                              else old(memory.entries))
      ensures r.Some? ==> Lookup(memory.entries, key) == r
    {
      r := memory.Get(key);
      if r.Some? {
        MoveToEndOnlyReorders(old(memory.entries), key);
        return;
      }
      if disk != null {
        r := disk.Get(key, now);
        if r.Some? {
          memory.Set(key, r.value);
        }
      }
    }

    /** `set`: write-through to L1 and, when present, to L2. */
    method Set(key: string, value: Bytes, now: int)
      requires Valid()
      modifies memory, disk
      ensures Valid()
      ensures memory.entries == AfterSet(old(memory.entries), key, value, memory.maxItems, memory.maxSizeBytes)
      ensures disk != null ==>
        var k := disk.digest(key);
        disk.State() == SizeLimited(Written(old(disk.State()), k, Meta(key, |value|, now, CachePath(disk.cacheDir, k)), value),
                                    disk.maxSizeBytes)
      ensures Lookup(memory.entries, key) == Some(value)
    {
      memory.Set(key, value);
      if disk != null {
        disk.Set(key, value, now);
      }
    }

    /** `has`: a fast check of L1 only; an entry held only by L2 is not reported. */
    function Has(key: string): (r: bool)
      reads this, memory
      ensures r <==> key in KeySet(memory.entries)
    {
      memory.Has(key)
    }

    /** `clear`: empty L1 and, when present, L2. */
    method Clear()
      requires Valid()
      modifies memory, disk
      ensures Valid() && memory.entries == []
      ensures disk != null ==> disk.index == [] && disk.files == old(disk.files) - Paths(old(disk.index))
    {
      memory.Clear();
      if disk != null {
        disk.Clear();
      }
    }
  }
}
