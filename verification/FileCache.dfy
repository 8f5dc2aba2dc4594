/** The in-memory file cache: entries are valid for one modification time, evicted oldest first. */
module FileCache {
  import opened Bytes

  type Path = string
  type Time = int

  datatype File = File(content: seq<Byte>, modified: Time)

  /** The files at one moment. */
  type FileSystem = map<Path, File>

  datatype Entry = Entry(data: seq<Byte>, lastAccessed: Time, modifiedTime: Time, originalSize: nat)

  datatype Config = Config(
    maxCacheFiles: nat, maxCacheFileSize: nat, totalCacheSizeLimit: nat, cacheDuration: nat)

  datatype LoadError = NotFound | EmptyFile

  datatype Loaded = MemoryCache(data: seq<Byte>) | DirectMemoryMap(data: seq<Byte>)

  type Cache = map<Path, Entry>

  // ----- the size of a cache

  ghost function Total(c: Cache): nat {
    if c.Keys == {} then 0
    else var p :| p in c.Keys; c[p].originalSize + Total(c - {p})
  }

  /** The total does not depend on the order of the entries. */
  lemma {:induction false} TotalRemove(c: Cache, p: Path)
    requires p in c
    ensures Total(c) == c[p].originalSize + Total(c - {p})
    decreases |c.Keys|
  {
    var q :| q in c.Keys && Total(c) == c[q].originalSize + Total(c - {q});
    if p != q {
      TotalRemove(c - {q}, p);
      TotalRemove(c - {p}, q);
      assert c - {q} - {p} == c - {p} - {q};
    }
  }

  lemma TotalInsert(c: Cache, p: Path, e: Entry)
    ensures Total(c[p := e]) == e.originalSize + Total(c - {p})
    ensures Total(c - {p}) <= Total(c)
  {
    TotalRemove(c[p := e], p);
    assert c[p := e] - {p} == c - {p};
    if p in c {
      TotalRemove(c, p);
    } else {
      assert c - {p} == c;
    }
  }

  // ----- eviction order

  predicate Oldest(c: Cache, p: Path) {
    p in c && forall q :: q in c ==> c[p].lastAccessed <= c[q].lastAccessed
  }

  ghost function Without(c: Cache, victims: seq<Path>): Cache {
    c - (set v | v in victims)
  }

  ghost predicate Fits(c: Cache, newSize: nat, config: Config) {
    |c| < config.maxCacheFiles && Total(c) + newSize <= config.totalCacheSizeLimit
  }

  /** Each victim was the least recently used entry left, and each one had to go. */
  ghost predicate EvictedOneByOne(c: Cache, victims: seq<Path>, newSize: nat, config: Config) {
    forall k :: 0 <= k < |victims|
      ==> Oldest(Without(c, victims[..k]), victims[k]) && !Fits(Without(c, victims[..k]), newSize, config)
  }

  /** One eviction: some least recently used entry leaves; an empty cache stays as it is. */
  ghost predicate EvictStep(before: Cache, after: Cache) {
    if before == map[] then after == before
    else exists p :: Oldest(before, p) && after == before - {p}
  }

  /** The caches that the count loop goes through if its guard never stops it. */
  ghost predicate CountRun(states: seq<Cache>) {
    states != [] && forall k :: 0 < k < |states| ==> EvictStep(states[k - 1], states[k])
  }

  lemma {:induction false} CountRunSizes(states: seq<Cache>, k: nat)
    requires CountRun(states) && k < |states|
    ensures |states[k]| == Max(0, |states[0]| - k)
    decreases k
  {
    if k > 0 {
      CountRunSizes(states, k - 1);
      assert EvictStep(states[k - 1], states[k]);
      if states[k - 1] != map[] {
        var p :| Oldest(states[k - 1], p) && states[k] == states[k - 1] - {p};
        assert states[k].Keys == states[k - 1].Keys - {p};
      }
    }
  }

  /**
   Every run of the count loop meets its exit within as many evictions as there are entries when
   at least one file may be cached, and never at all when none may.
   */
  lemma CountLoopEndsIff(states: seq<Cache>, config: Config)
    requires CountRun(states) && |states| > |states[0]|
    ensures config.maxCacheFiles >= 1 <==> exists k :: 0 <= k < |states| && |states[k]| < config.maxCacheFiles
    ensures config.maxCacheFiles >= 1 ==> exists k :: 0 <= k <= |states[0]| && |states[k]| < config.maxCacheFiles
  {
    CountRunSizes(states, |states[0]|);
  }

  lemma WithoutMore(c: Cache, victims: seq<Path>, p: Path)
    ensures Without(c, victims + [p]) == Without(c, victims) - {p}
  {
  }

  lemma EvictOneMore(c: Cache, victims: seq<Path>, p: Path, newSize: nat, config: Config)
    requires EvictedOneByOne(c, victims, newSize, config)
    requires Oldest(Without(c, victims), p) && !Fits(Without(c, victims), newSize, config)
    ensures EvictedOneByOne(c, victims + [p], newSize, config)
    ensures Without(c, victims + [p]) == Without(c, victims) - {p}
  {
    WithoutMore(c, victims, p);
    var more := victims + [p];
    forall k | 0 <= k < |more|
      ensures Oldest(Without(c, more[..k]), more[k]) && !Fits(Without(c, more[..k]), newSize, config)
    {
      assert more[..k] == victims[..k];
      assert victims[..|victims|] == victims;
    }
  }

  /** No victim was accessed later than any survivor. */
  lemma NoYoungerVictim(c: Cache, victims: seq<Path>, newSize: nat, config: Config, k: nat, q: Path)
    requires EvictedOneByOne(c, victims, newSize, config)
    requires k < |victims| && q in Without(c, victims)
    ensures victims[k] in c && c[victims[k]].lastAccessed <= c[q].lastAccessed
  {
    assert Oldest(Without(c, victims[..k]), victims[k]);
    assert q in Without(c, victims[..k]);
  }

  /**
   When no two entries share an access time, every eviction that spares the more recently used
   and makes the new file fit (or empties the cache) evicts at least these victims.
   */
  lemma EvictsFewest(c: Cache, victims: seq<Path>, newSize: nat, config: Config, other: set<Path>)
    requires EvictedOneByOne(c, victims, newSize, config)
    requires forall p, q :: p in c && q in c && c[p].lastAccessed == c[q].lastAccessed ==> p == q
    requires forall p, q :: p in other && p in c && q in c && q !in other ==> c[p].lastAccessed <= c[q].lastAccessed
    requires other <= c.Keys
    requires Fits(c - other, newSize, config) || c - other == map[]
    ensures forall v :: v in victims ==> v in other
  {
    if v :| v in victims && v !in other {
      var k := FirstSpared(victims, other);
      SparedFrom(c, victims, other, k);
    }
  }

  /** Sparing the `k`-th victim spares everything that was left then. */
  lemma SparedFrom(c: Cache, victims: seq<Path>, other: set<Path>, k: nat)
    requires k < |victims| && Oldest(Without(c, victims[..k]), victims[k])
    requires forall p, q :: p in c && q in c && c[p].lastAccessed == c[q].lastAccessed ==> p == q
    requires forall p, q :: p in other && p in c && q in c && q !in other ==> c[p].lastAccessed <= c[q].lastAccessed
    requires other <= c.Keys
    requires victims[k] !in other && forall j :: 0 <= j < k ==> victims[j] in other
    ensures c - other == Without(c, victims[..k]) && victims[k] in c - other
  {
  }

  lemma FirstSpared(victims: seq<Path>, other: set<Path>) returns (k: nat)
    requires exists v :: v in victims && v !in other
    ensures k < |victims| && victims[k] !in other
    ensures forall j :: 0 <= j < k ==> victims[j] in other
  {
    k := 0;
    while victims[k] in other
      invariant k < |victims|
      invariant forall j :: 0 <= j < k ==> victims[j] in other
      decreases |victims| - k
    {
      if k + 1 == |victims| {
        assert false;
      }
      k := k + 1;
    }
  }

  /** A file read and stored: the victims leave, each of them having had to, and the new entry is there. */
  ghost predicate Stored(before: Cache, after: Cache, path: Path, content: seq<Byte>, modified: Time, size: nat,
                         now: Time, victims: seq<Path>, config: Config) {
    && EvictedOneByOne(before, victims, size, config)
    && (Fits(Without(before, victims), size, config) || Without(before, victims) == map[])
    && after == Without(before, victims)[path := Entry(content, now, modified, |content|)]
  }

  /** The count limit is kept; the total limit is broken exactly by a file that exceeds it alone. */
  lemma StoredBounds(before: Cache, after: Cache, path: Path, content: seq<Byte>, modified: Time, size: nat,
                     now: Time, victims: seq<Path>, config: Config)
    requires Stored(before, after, path, content, modified, size, now, victims, config)
    requires config.maxCacheFiles >= 1
    ensures path in after && |after| <= config.maxCacheFiles
    ensures |content| <= size <= config.totalCacheSizeLimit ==> Total(after) <= config.totalCacheSizeLimit
    ensures |content| > config.totalCacheSizeLimit ==> Total(after) > config.totalCacheSizeLimit
  {
    var left := Without(before, victims);
    var entry := Entry(content, now, modified, |content|);
    TotalInsert(left, path, entry);
    InsertCount(left, path, entry);
  }

  /** A hit touches only an access time, so it keeps both limits. */
  lemma TouchedBounds(c: Cache, path: Path, now: Time)
    requires path in c
    ensures var touched := c[path := c[path].(lastAccessed := now)]; |touched| == |c| && Total(touched) == Total(c)
  {
    TotalInsert(c, path, c[path].(lastAccessed := now));
    TotalRemove(c, path);
    InsertCount(c, path, c[path].(lastAccessed := now));
  }

  // ----- the cache

  /** `now.duration_since(last).unwrap_or_default()`: a time in the future counts as just now. */
  predicate Expired(e: Entry, now: Time, duration: nat) {
    Max(0, now - e.lastAccessed) > duration
  }

  /** Equal path and modification time mean equal content: `version` says which. */
  ghost predicate Consistent(fs: FileSystem, version: (Path, Time) -> seq<Byte>) {
    forall p :: p in fs ==> fs[p].content == version(p, fs[p].modified)
  }

  class ZeroCopyCache {
    const config: Config
    var cache: Cache

    constructor (config: Config)
      ensures this.config == config && cache == map[]
    {
      this.config, cache := config, map[];
    }

    ghost predicate Valid()
      reads this
    {
      forall p :: p in cache ==> cache[p].originalSize == |cache[p].data|
    }

    ghost predicate Bounded()
      reads this
    {
      |cache| <= config.maxCacheFiles && Total(cache) <= config.totalCacheSizeLimit
    }

    /** Every entry holds what its file held at the entry's modification time. */
    ghost predicate Faithful(version: (Path, Time) -> seq<Byte>)
      reads this
    {
      forall p :: p in cache ==> cache[p].data == version(p, cache[p].modifiedTime)
    }

    /** `iter().map(..).sum()`. */
    method TotalSize() returns (total: nat)
      ensures total == Total(cache)
    {
      total := 0;
      var rest := cache;
      while rest != map[]
        invariant total + Total(rest) == Total(cache)
        decreases |rest|
      {
        var p :| p in rest;
        TotalRemove(rest, p);
        total := total + rest[p].originalSize;
        rest := rest - {p};
      }
    }

    /** `iter().min_by_key(..)`: some entry with the least access time. */
    method FindOldest() returns (oldest: Path)
      requires cache != map[]
      ensures Oldest(cache, oldest)
    {
      var rest := cache.Keys;
      oldest :| oldest in rest;
      rest := rest - {oldest};
      while rest != {}
        invariant oldest in cache && rest <= cache.Keys
        invariant forall q :: q in cache.Keys - rest ==> cache[oldest].lastAccessed <= cache[q].lastAccessed
      {
        var p :| p in rest;
        if cache[p].lastAccessed < cache[oldest].lastAccessed {
          oldest := p;
        }
        rest := rest - {p};
      }
    }

    method EvictOldest() returns (size: Option<nat>, ghost victim: Path)
      requires Valid()
      modifies this
      ensures old(cache) == map[] ==> size == None && cache == old(cache)
      ensures old(cache) != map[]
          ==> (&& Oldest(old(cache), victim) && cache == old(cache) - {victim}
               && size == Some(old(cache)[victim].originalSize))
      ensures Valid() && EvictStep(old(cache), cache)
    {
      victim := "";
      if cache == map[] {
        return None, victim;
      }
      var oldest := FindOldest();
      var evicted := |cache[oldest].data|;
      cache := cache - {oldest};
      return Some(evicted), oldest;
    }

    /** Make room for one more file: first for its count, then for its size. */
    method EnsureCapacity(newFileSize: nat) returns (ghost victims: seq<Path>)
      requires Valid() && config.maxCacheFiles >= 1
      modifies this
      ensures Valid()
      ensures cache == Without(old(cache), victims)
      ensures EvictedOneByOne(old(cache), victims, newFileSize, config)
      ensures Fits(cache, newFileSize, config) || cache == map[]
    {
      victims := [];
      assert cache == Without(old(cache), []);
      while |cache| >= config.maxCacheFiles
        invariant Valid()
        invariant cache == Without(old(cache), victims)
        invariant EvictedOneByOne(old(cache), victims, newFileSize, config)
        decreases |cache|
      {
        var size, victim := EvictOldest();
        EvictOneMore(old(cache), victims, victim, newFileSize, config);
        victims := victims + [victim];
      }

      var currentTotalSize := TotalSize();
      var remainingSize := currentTotalSize + newFileSize;
      while remainingSize > config.totalCacheSizeLimit && cache != map[]
        invariant Valid() && |cache| < config.maxCacheFiles
        invariant remainingSize == Total(cache) + newFileSize
        invariant cache == Without(old(cache), victims)
        invariant EvictedOneByOne(old(cache), victims, newFileSize, config)
        decreases |cache|
      {
        ghost var before := cache;
        var size, victim := EvictOldest();
        TotalRemove(before, victim);
        EvictOneMore(old(cache), victims, victim, newFileSize, config);
        victims := victims + [victim];
        remainingSize := remainingSize - size.value;
      }
    }

    /** Below the size limit: a hit on path and modification time, or a read and an insertion. */
    method LoadFromMemory(path: Path, fileSize: nat, modified: Time, disk: FileSystem, now: Time)
      returns (r: Result<Loaded, LoadError>, ghost victims: seq<Path>)
      requires Valid() && config.maxCacheFiles >= 1
      modifies this
      ensures Valid()
      ensures if path in old(cache) && old(cache)[path].modifiedTime == modified then
                && r == Ok(MemoryCache(old(cache)[path].data))
                && cache == old(cache)[path := old(cache)[path].(lastAccessed := now)]
              else if path !in disk then r == Err(NotFound) && cache == old(cache)
              else
                && r == Ok(MemoryCache(disk[path].content))
                && Stored(old(cache), cache, path, disk[path].content, modified, fileSize, now, victims, config)
    {
      victims := [];
      if path in cache && cache[path].modifiedTime == modified {
        cache := cache[path := cache[path].(lastAccessed := now)];
        return Ok(MemoryCache(cache[path].data)), victims;
      }
      if path !in disk {
        return Err(NotFound), victims;
      }
      var fileData := disk[path].content;
      var entry := Entry(fileData, now, modified, |fileData|);
      victims := EnsureCapacity(fileSize);
      cache := cache[path := entry];
      return Ok(MemoryCache(fileData)), victims;
    }

    /** `atStat` is what `metadata` saw and `atRead` what `read` or the mapping saw. */
    method LoadFile(path: Path, atStat: FileSystem, atRead: FileSystem, now: Time)
      returns (r: Result<Loaded, LoadError>, ghost victims: seq<Path>)
      requires Valid() && config.maxCacheFiles >= 1
      modifies this
      ensures Valid()
      ensures if path !in atStat then r == Err(NotFound) && cache == old(cache)
              else if |atStat[path].content| > config.maxCacheFileSize then
                && cache == old(cache)
                && r == (if path !in atRead then Err(NotFound)
                         else if atRead[path].content == [] then Err(EmptyFile)
                         else Ok(DirectMemoryMap(atRead[path].content)))
              else if path in old(cache) && old(cache)[path].modifiedTime == atStat[path].modified then
                && r == Ok(MemoryCache(old(cache)[path].data))
                && cache == old(cache)[path := old(cache)[path].(lastAccessed := now)]
              else if path !in atRead then r == Err(NotFound) && cache == old(cache)
              else
                && r == Ok(MemoryCache(atRead[path].content))
                && Stored(old(cache), cache, path, atRead[path].content, atStat[path].modified,
                          |atStat[path].content|, now, victims, config)
      ensures old(Bounded()) && config.maxCacheFileSize <= config.totalCacheSizeLimit
           && (path in atStat && path in atRead ==> |atRead[path].content| <= |atStat[path].content|)
          ==> Bounded()
    {
      hide Total, Fits, EvictedOneByOne;
      victims := [];
      if path !in atStat {
        return Err(NotFound), victims;
      }
      var fileSize := |atStat[path].content|;
      if fileSize <= config.maxCacheFileSize {
        ghost var before := cache;
        var modified := atStat[path].modified;
        r, victims := LoadFromMemory(path, fileSize, modified, atRead, now);
        if path in before && before[path].modifiedTime == modified {
          TouchedBounds(before, path, now);
        } else if path in atRead {
          StoredBounds(before, cache, path, atRead[path].content, modified, fileSize, now, victims, config);
        }
        return;
      }
      if path !in atRead {
        return Err(NotFound), victims;
      }
      if atRead[path].content == [] {
        return Err(EmptyFile), victims;
      }
      return Ok(DirectMemoryMap(atRead[path].content)), victims;
    }

    method CleanupExpired(now: Time)
      requires Valid()
      modifies this
      ensures Valid()
      ensures cache == map p | p in old(cache) && now - old(cache)[p].lastAccessed <= config.cacheDuration
                         :: old(cache)[p]
    {
      var expiredKeys := set p | p in cache && Expired(cache[p], now, config.cacheDuration);
      var rest := expiredKeys;
      while rest != {}
        invariant rest <= expiredKeys
        invariant cache == old(cache) - (expiredKeys - rest)
      {
        var key :| key in rest;
        cache := cache - {key};
        rest := rest - {key};
      }
    }

    method Clear()
      modifies this
      ensures cache == map[]
    {
      cache := map[];
    }
  }

  lemma InsertCount(c: Cache, p: Path, e: Entry)
    ensures |c[p := e]| == if p in c then |c| else |c| + 1
  {
  }

  // ----- whole runs

  datatype Op =
    | Load(path: Path, disk: FileSystem, now: Time)  // the disk as it is at this load
    | Cleanup(now: Time)
    | ClearAll

  /** One operation, its answer, the cached paths and `stats()` right after it. */
  datatype Seen = Seen(
    op: Op, result: Option<Result<Loaded, LoadError>>, cached: set<Path>, fileCount: nat, totalSize: nat)

  /** What a cache that is not noticed answers: the file's bytes, or that there is no file. */
  ghost predicate Transparent(s: Seen) {
    match s.op
    case Load(path, disk, _) =>
      && s.result.Some?
      && if path in disk then s.result.value.Ok? && s.result.value.value.data == disk[path].content
         else s.result.value == Err(NotFound)
    case _ => s.result.None?
  }

  predicate WithinLimits(s: Seen, config: Config) {
    s.fileCount <= config.maxCacheFiles && s.totalSize <= config.totalCacheSizeLimit
  }

  /** A file small enough is in the cache right after a load; a clear leaves nothing. */
  ghost predicate Cached(s: Seen, config: Config) {
    && s.fileCount == |s.cached|
    && match s.op
       case Load(path, disk, _) =>
         path in disk && |disk[path].content| <= config.maxCacheFileSize ==> path in s.cached
       case ClearAll => s.cached == {}
       case Cleanup(_) => true
  }

  lemma TotalSubset(c: Cache, d: Cache)
    requires forall p :: p in d ==> p in c && d[p] == c[p]
    ensures Total(d) <= Total(c) && |d| <= |c|
    decreases |d.Keys|
  {
    assert d.Keys <= c.Keys;
    SubsetSize(d.Keys, c.Keys);
    if p :| p in d {
      TotalRemove(c, p);
      TotalRemove(d, p);
      TotalSubset(c - {p}, d - {p});
    } else {
      assert d == map[];
    }
  }

  lemma SubsetSize<T>(a: set<T>, b: set<T>)
    requires a <= b
    ensures |a| <= |b|
  {
    assert b == a + (b - a);
  }

  /** A load with one view of the disk keeps the limits and the entries' faith, and gives the file's bytes. */
  method Load(cache: ZeroCopyCache, path: Path, disk: FileSystem, now: Time, ghost version: (Path, Time) -> seq<Byte>)
    returns (r: Result<Loaded, LoadError>)
    requires cache.Valid() && cache.Bounded() && cache.Faithful(version) && Consistent(disk, version)
    requires cache.config.maxCacheFiles >= 1
    requires cache.config.maxCacheFileSize <= cache.config.totalCacheSizeLimit
    modifies cache
    ensures cache.Valid() && cache.Bounded() && cache.Faithful(version)
    ensures if path !in disk then r == Err(NotFound)
            else if |disk[path].content| <= cache.config.maxCacheFileSize then
              r == Ok(MemoryCache(disk[path].content)) && path in cache.cache
            else r == Ok(DirectMemoryMap(disk[path].content))
  {
    hide Total, Fits, EvictedOneByOne;
    ghost var victims;
    r, victims := cache.LoadFile(path, disk, disk, now);
  }

  method Perform(cache: ZeroCopyCache, op: Op, ghost version: (Path, Time) -> seq<Byte>) returns (seen: Seen)
    requires cache.Valid() && cache.Bounded() && cache.Faithful(version)
    requires cache.config.maxCacheFiles >= 1
    requires cache.config.maxCacheFileSize <= cache.config.totalCacheSizeLimit
    requires op.Load? ==> Consistent(op.disk, version)
    modifies cache
    ensures cache.Valid() && cache.Bounded() && cache.Faithful(version)
    ensures seen.op == op && Transparent(seen) && WithinLimits(seen, cache.config) && Cached(seen, cache.config)
    ensures seen.cached == cache.cache.Keys
  {
    ghost var before := cache.cache;
    var result := None;
    match op {
      case Load(path, disk, now) =>
        var r := Load(cache, path, disk, now, version);
        result := Some(r);
      case Cleanup(now) =>
        cache.CleanupExpired(now);
        TotalSubset(before, cache.cache);
      case ClearAll =>
        cache.Clear();
        TotalSubset(before, cache.cache);
    }
    var total := cache.TotalSize();
    return Seen(op, result, cache.cache.Keys, |cache.cache|, total);
  }

  /** Any sequence of loads, file changes between them, cleanups and clears. */
  method RunAll(cache: ZeroCopyCache, ops: seq<Op>, ghost version: (Path, Time) -> seq<Byte>) returns (seen: seq<Seen>)
    requires cache.cache == map[]
    requires cache.config.maxCacheFiles >= 1
    requires cache.config.maxCacheFileSize <= cache.config.totalCacheSizeLimit
    requires forall i :: 0 <= i < |ops| && ops[i].Load? ==> Consistent(ops[i].disk, version)
    modifies cache
    ensures |seen| == |ops|
    ensures forall i :: 0 <= i < |ops|
              ==> (&& seen[i].op == ops[i] && Transparent(seen[i])
                   && WithinLimits(seen[i], cache.config) && Cached(seen[i], cache.config))
  {
    seen := [];
    for i := 0 to |ops|
      invariant cache.Valid() && cache.Bounded() && cache.Faithful(version)
      invariant |seen| == i
      invariant forall k :: 0 <= k < i
                  ==> (&& seen[k].op == ops[k] && Transparent(seen[k])
                       && WithinLimits(seen[k], cache.config) && Cached(seen[k], cache.config))
    {
      var s := Perform(cache, ops[i], version);
      seen := seen + [s];
    }
  }
}
