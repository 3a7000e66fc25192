/** The short-link service of cores/service.go over the in-memory repository, pool and cache. */
module Service {
  import opened Collections
  import opened Base62
  import opened Generator
  import opened Links
  import opened MemoryRepository
  import opened MemoryPool
  import opened MemoryCache
  import opened Rows
  import opened Lifecycle
  import opened Sweeps

  const MINUTE := 60 * SECOND

  class ShortLinkService {
    const Repo: MemoryShortLinkRepository
    const Pool: MemoryShortCodePool
    const Cache: MemoryShortLinkCache
    const clock: Clock

    const batchGenerateSize: int
    const maxCodeLength: int
    const manualCodeLength: int

    var generators: map<int, ShortCodeGenerator>

    ghost function Abs(): Sys
      reads Repo, Pool, Cache, clock
    {
      Sys(Repo.Abs(), Pool.pools, Cache.cache, clock.now)
    }

    ghost function Cfg(): Config {
      Config(manualCodeLength, maxCodeLength, batchGenerateSize,
        Steps(manualCodeLength, maxCodeLength, batchGenerateSize))
    }

    /** The generators made so far are right ones, for lengths above the manual ones up to `upTo`. */
    ghost predicate ValidUpTo(upTo: int)
      reads this, Repo
    {
      && Repo.Valid() && Repo.clock == clock && Pool.clock == clock && Cache.clock == clock
      && -1 <= manualCodeLength && 1 <= batchGenerateSize < TWO_63
      && (forall L :: L in generators <==> manualCodeLength < L <= upTo)
      && (forall L :: L in generators ==> IsGenerator(generators[L], L, batchGenerateSize))
    }

    ghost predicate Valid()
      reads this, Repo
    {
      ValidUpTo(maxCodeLength)
    }

    /** Makes the generators, and a first batch for every length whose pool holds fewer than 100 codes. */
    constructor (repo: MemoryShortLinkRepository, cache: MemoryShortLinkCache, pool: MemoryShortCodePool,
            clock: Clock, batchGenerateSize: int, maxCodeLength: int, manualCodeLength: int)
      requires repo.Valid() && repo.clock == clock && pool.clock == clock && cache.clock == clock
      requires -1 <= manualCodeLength && 1 <= batchGenerateSize < TWO_63
      requires IndexesInt64(repo.Abs())
      modifies repo, pool, cache, clock
      ensures Valid() && ValidConfig(Cfg())
      ensures Repo == repo && Pool == pool && Cache == cache && this.clock == clock
      ensures Cfg() == Config(manualCodeLength, maxCodeLength, batchGenerateSize,
                              Steps(manualCodeLength, maxCodeLength, batchGenerateSize))
      ensures old(clock.now) <= clock.now
      ensures Abs() == Started(Cfg(), Sys(old(repo.Abs()), old(pool.pools), old(cache.cache), old(clock.now)),
                               maxCodeLength).(now := clock.now)
    {
      Repo, Pool, Cache, this.clock := repo, pool, cache, clock;
      this.batchGenerateSize := batchGenerateSize;
      this.maxCodeLength, this.manualCodeLength := maxCodeLength, manualCodeLength;
      generators := map[];
      new;
      Start();
      StepsValid(Cfg());
    }

    /** The constructor's loop over the lengths above the manual ones. */
    method Start()
      requires ValidUpTo(manualCodeLength)
      requires IndexesInt64(Repo.Abs())
      modifies this`generators, Repo, Pool, clock
      ensures Valid() && old(clock.now) <= clock.now
      ensures Abs() == Started(Cfg(), old(Abs()), maxCodeLength).(now := clock.now)
    {
      var i := manualCodeLength + 1;
      ghost var cfg, s0, t := Cfg(), Abs(), Abs();
      StartingFirst(cfg, s0, i);
      while i <= maxCodeLength
        invariant manualCodeLength < i && (i <= maxCodeLength + 1 || i == manualCodeLength + 1)
        invariant ValidUpTo(i - 1) && s0.now <= clock.now
        invariant Starting(cfg, s0, t, i) && Abs() == t.(now := clock.now)
      {
        StartingNext(cfg, s0, t, i, clock.now);
        StartLength(i);
        t := StartedLength(cfg, t, i);
        i := i + 1;
      }
    }

    method StartLength(i: int)
      requires manualCodeLength < i <= maxCodeLength && ValidUpTo(i - 1) && IsInt64(Index(Repo.Abs(), i))
      modifies this`generators, Repo, Pool, clock
      ensures ValidUpTo(i) && old(clock.now) <= clock.now
      ensures Abs() == StartedLength(Cfg(), old(Abs()), i).(now := clock.now)
    {
      var generator := new ShortCodeGenerator(i, batchGenerateSize);
      generators := generators[i := generator];
      var size := Pool.Size(i);
      if size < 100 {
        var panicked := BatchGenerate(i, i);
      }
    }

    /**
      Runs in its own goroutine. The second result says that there was no generator, where the
      source dereferences nil. `upTo` is the length up to which generators exist.
     */
    method BatchGenerate(shortCodeLength: int, ghost upTo: int) returns (panicked: bool)
      requires ValidUpTo(upTo) && upTo <= maxCodeLength && IsInt64(Index(Repo.Abs(), shortCodeLength))
      modifies Repo, Pool, clock
      ensures ValidUpTo(upTo) && old(clock.now) <= clock.now
      ensures panicked == (shortCodeLength !in generators)
      ensures Pool.lockStatus == old(Pool.lockStatus) - {shortCodeLength}
      ensures !panicked ==> Abs() == GenerateBatch(Cfg(), old(Abs()), shortCodeLength).(now := clock.now)
      ensures panicked ==> Abs() == old(Abs()).(now := clock.now)
    {
      ghost var lockedAt;
      var locked;
      locked, lockedAt := Pool.Lock(shortCodeLength, MINUTE);
      var startIndex := Repo.GetStartIndex(shortCodeLength);
      if shortCodeLength !in generators {
        Pool.Unlock(shortCodeLength);
        return true;
      }
      panicked := false;
      GenerateAnyTime(Cfg(), old(Abs()), shortCodeLength, clock.now);
      GenerateNext(shortCodeLength, startIndex, upTo);
      Pool.Unlock(shortCodeLength);
    }

    /** The work under the lock: nothing for an exhausted length. */
    method GenerateNext(length: int, startIndex: int, ghost upTo: int)
      requires ValidUpTo(upTo) && upTo <= maxCodeLength && length in generators
      requires startIndex == Index(Repo.Abs(), length) && IsInt64(startIndex)
      modifies Pool`pools, Repo
      ensures ValidUpTo(upTo) && Abs() == GenerateBatch(Cfg(), old(Abs()), length)
    {
      assert Cfg().steps[length] == generators[length].step;
      var batch := generators[length].GenerateBatchNumbers(length, startIndex);
      if batch.None? {
        return;
      }
      Publish(length, batch.value, startIndex, generators[length].step);
    }

    /** Adds the codes of a batch to the pool and records the next index. */
    method Publish(length: nat, numbers: seq<int>, index: int, ghost step: int)
      requires Repo.Valid() && numbers == BatchNumbers(step, |numbers|, index) && |numbers| >= 1
      modifies Pool`pools, Repo
      ensures Repo.Valid() && Repo.Abs() == Saved(old(Repo.Abs()), length, index + 1)
      ensures Pool.pools == Appended(old(Pool.pools), length, BatchCodes(length, step, index, |numbers|))
    {
      AddBatch(length, numbers, index, step);
      Repo.SaveStartIndex(length, index + 1);
    }

    /** Adds the codes of one batch to the pool. */
    method AddBatch(length: nat, numbers: seq<int>, ghost index: int, ghost step: int)
      requires numbers == BatchNumbers(step, |numbers|, index) && |numbers| >= 1
      modifies Pool`pools
      ensures Pool.pools == Appended(old(Pool.pools), length, BatchCodes(length, step, index, |numbers|))
    {
      for i := 0 to |numbers|
        invariant i == 0 ==> Pool.pools == old(Pool.pools)
        invariant i > 0 ==> Pool.pools == Appended(old(Pool.pools), length, BatchCodes(length, step, index, i))
      {
        var code := ToBase62(numbers[i], length);
        Pool.Add(length, code);
        AppendedNext(old(Pool.pools), length, step, index, i);
      }
    }

    /** `spawn` says that batch generation was started in the background. */
    method Create(title: string, link: string, shortCodeLength: int, expireTime: int)
      returns (created: Option<ShortLink>, spawn: bool)
      requires Valid()
      modifies Repo, Pool`pools, Cache
      ensures Valid() && Abs() == CreateLink(Cfg(), old(Abs()), shortCodeLength, title, link, expireTime)
      ensures created.Some? <==> 1 <= shortCodeLength <= maxCodeLength
      ensures created.Some? ==> old(Repo.nextID) in Repo.links && created.value == Repo.links[old(Repo.nextID)]
      ensures spawn <==> created.Some? && |PoolOf(Pool.pools, shortCodeLength)| <= 10
    {
      if shortCodeLength < 1 || shortCodeLength > maxCodeLength {
        return None, false;
      }
      var shortCode, enough := Pool.Pull(shortCodeLength);
      spawn := !enough;
      var added := Add(shortCode, title, link, expireTime);
      created := Some(added);
    }

    method Add(code: string, title: string, link: string, expireTime: int) returns (added: ShortLink)
      requires Valid()
      modifies Repo, Cache
      ensures Valid() && Abs() == AddLink(old(Abs()), code, title, link, expireTime)
      ensures added == NewRow(code, title, link, expireTime).(id := old(Repo.nextID))
    {
      Cache.Add(|code|, code, link, expireTime);
      added := Repo.Create(NewRow(code, title, link, expireTime));
    }

    /** False is "short link not found". */
    method Update(code: string, title: string, link: string, expireTime: int) returns (ok: bool)
      requires Valid()
      modifies Repo, Cache
      ensures Valid() && Abs() == UpdateLink(old(Abs()), code, title, link, expireTime)
      ensures ok == Found(old(Repo.Abs()), code).Some?
    {
      var found := Repo.GetByCode(code);
      if found.None? {
        return false;
      }
      Cache.Add(|code|, code, link, expireTime);
      assert found.value.id == Repo.codeToID[code];
      var shortLink := found.value.(link := link, title := title, expire := expireTime);
      ok := Repo.Update(shortLink);
    }

    /** The cache entry goes even when no row has the code. */
    method Remove(code: string) returns (ok: bool)
      requires Valid()
      modifies Repo, Cache
      ensures Valid() && Abs() == RemoveLink(old(Abs()), code) && ok == (code in old(Repo.codeToID))
    {
      Cache.Remove(|code|, code);
      ok := Repo.DeleteByCode(code);
    }

    /**
      Marks Active links past their expiry, a page at a time. `done` are the IDs marked and `trace`
      the steps taken, clock readings included. With pages in ID order, or when all due links fit
      one page, every link due at the start is marked.
     */
    method ExpireActives() returns (ghost trace: seq<Event>, ghost done: seq<int>)
      requires Valid()
      modifies Repo, Cache, clock
      ensures Valid() && Abs() == Run(Cfg(), old(Abs()), trace) && old(clock.now) <= clock.now
      ensures forall e :: e in trace ==> e.Tick? || e.ExpireOne?
      ensures Swept(old(Repo.links), Repo.links, done, Due(old(Repo.links), Active, clock.now), Expired)
      ensures Repo.ordered || |Due(old(Repo.links), Active, clock.now)| <= 100
        ==> Due(old(Repo.links), Active, old(clock.now)) <= Elements(done)
    {
      var fromId, limit := 0, 100;
      ghost var cfg, s0 := Cfg(), Abs();
      trace, done := [], [];
      ExpiringStarts(cfg, s0, limit, Repo.ordered);
      while true
        invariant Valid() && limit == 100
        invariant Expiring(cfg, s0, Abs(), trace, done, fromId, limit, Repo.ordered)
        decreases After(Repo.links.Keys, fromId)
      {
        ghost var s := Abs();
        var links := Repo.FindExpiredActives(fromId, limit);
        ExpiringReadsClock(cfg, s0, s, trace, done, fromId, limit, Repo.ordered, clock.now);
        trace := trace + [Tick(clock.now)];
        if |links| == 0 {
          ExpiringEnds(cfg, s0, Abs(), trace, done, fromId, limit, Repo.ordered);
          break;
        }
        ExpiringPage(cfg, s0, Abs(), trace, done, fromId, limit, Repo.ordered, links);
        AfterShrinks(Repo.links.Keys, fromId, links[|links| - 1].id);
        ExpirePage(links);
        trace, done := trace + ExpireEvents(links), done + Ids(links);
        fromId := links[|links| - 1].id;
      }
    }

    /** One page of ExpireActives: out of the cache, marked, written back. */
    method ExpirePage(links: seq<ShortLink>)
      requires Valid()
      modifies Repo, Cache
      ensures Valid() && Abs() == ExpiredPage(old(Abs()), links)
    {
      var marked := [];
      for i := 0 to |links|
        modifies Cache
        invariant Cache.cache == DroppedAll(old(Cache.cache), links[..i]) && marked == Marked(links[..i], Expired)
      {
        assert links[..i + 1][..i] == links[..i];
        Cache.Remove(links[i].length, links[i].code);
        marked := marked + [links[i].(status := Expired)];
      }
      assert links[..|links|] == links;
      var ok := Repo.Updates(marked);
    }

    /** Returns the codes of links expired for more than 365 days to their pools, a page at a time. */
    method RecycleExpires() returns (ghost trace: seq<Event>, ghost done: seq<int>)
      requires Valid()
      modifies Repo, Pool`pools, clock
      ensures Valid() && old(clock.now) <= clock.now
      ensures Abs() == Run(Cfg(), old(Abs()).(now := clock.now), trace) && forall e :: e in trace ==> e.RecycleOne?
      ensures Swept(old(Repo.links), Repo.links, done, Due(old(Repo.links), Expired, clock.now - YEAR), Recycled)
      ensures Repo.ordered || |Due(old(Repo.links), Expired, clock.now - YEAR)| <= 100
        ==> Due(old(Repo.links), Expired, clock.now - YEAR) == Elements(done)
    {
      var now := clock.Read();
      trace, done := RecycleDue(now - YEAR);
    }

    /** The loop over the pages. */
    method RecycleDue(expiredBefore: int) returns (ghost trace: seq<Event>, ghost done: seq<int>)
      requires Valid() && expiredBefore == clock.now - YEAR
      modifies Repo, Pool`pools
      ensures Valid() && Abs() == Run(Cfg(), old(Abs()), trace) && forall e :: e in trace ==> e.RecycleOne?
      ensures Swept(old(Repo.links), Repo.links, done, Due(old(Repo.links), Expired, expiredBefore), Recycled)
      ensures Repo.ordered || |Due(old(Repo.links), Expired, expiredBefore)| <= 100
        ==> Due(old(Repo.links), Expired, expiredBefore) == Elements(done)
    {
      var fromId, limit := 0, 100;
      ghost var cfg, s0 := Cfg(), Abs();
      trace, done := [], [];
      RecyclingStarts(cfg, s0, limit, Repo.ordered);
      while true
        invariant Valid() && limit == 100
        invariant Recycling(cfg, s0, Abs(), trace, done, fromId, limit, Repo.ordered)
        decreases After(Repo.links.Keys, fromId)
      {
        var links := Repo.FindExpires(fromId, expiredBefore, limit);
        if |links| == 0 {
          RecyclingEnds(cfg, s0, Abs(), trace, done, fromId, limit, Repo.ordered);
          break;
        }
        RecyclingPage(cfg, s0, Abs(), trace, done, fromId, limit, Repo.ordered, links);
        AfterShrinks(Repo.links.Keys, fromId, links[|links| - 1].id);
        RecyclePage(links);
        trace, done := trace + RecycleEvents(links), done + Ids(links);
        fromId := links[|links| - 1].id;
      }
    }

    /** One page of RecycleExpires: back into the pools, marked, written back. */
    method RecyclePage(links: seq<ShortLink>)
      requires Valid()
      modifies Repo, Pool`pools
      ensures Valid() && Abs() == RecycledPage(old(Abs()), links)
    {
      var marked := [];
      for i := 0 to |links|
        modifies Pool`pools
        invariant Pool.pools == ReturnedAll(old(Pool.pools), links[..i]) && marked == Marked(links[..i], Recycled)
      {
        assert links[..i + 1][..i] == links[..i];
        Pool.Add(links[i].length, links[i].code);
        marked := marked + [links[i].(status := Recycled)];
      }
      assert links[..|links|] == links;
      var ok := Repo.Updates(marked);
    }

    /**
      Clears the pool, regenerates every batch below the stored index, and takes out the codes of
      Active and Expired links. `panicked`: batches are recorded for a length without generator.
     */
    method RebuildCodePool(length: int) returns (ok: bool, panicked: bool)
      requires Valid() && IsInt64(Index(Repo.Abs(), length))
      modifies Pool, clock
      ensures Valid() && old(clock.now) <= clock.now
      ensures Abs() == RebuildPool(Cfg(), old(Abs()), length).(now := clock.now)
      ensures ok <==> 1 <= length <= maxCodeLength && !panicked
      ensures Pool.lockStatus == old(Pool.lockStatus) - if 1 <= length <= maxCodeLength then {length} else {}
      ensures panicked <==> 1 <= length <= maxCodeLength && length !in generators && Index(old(Repo.Abs()), length) > 0
    {
      if length < 1 || length > maxCodeLength {
        return false, false;
      }
      ghost var lockedAt;
      var locked;
      locked, lockedAt := Pool.Lock(length, 5 * MINUTE);
      panicked := Refill(length);
      Pool.Unlock(length);
      ok := !panicked;
    }

    /** The work under the lock: clear, regenerate, take out the used codes. */
    method Refill(length: int) returns (panicked: bool)
      requires Valid() && IsInt64(Index(Repo.Abs(), length)) && 1 <= length <= maxCodeLength
      modifies Pool`pools
      ensures Abs() == RebuildPool(Cfg(), old(Abs()), length)
      ensures panicked <==> length !in generators && Index(Repo.Abs(), length) > 0
    {
      ghost var cfg, s0 := Cfg(), Abs();
      Pool.Clear(length);
      var currentStartIndex := Repo.GetStartIndex(length);
      if length !in generators && currentStartIndex > 0 {
        RebuiltWithoutGenerator(cfg, s0, length);
        return true;
      }
      RegenerateAll(length, currentStartIndex);
      var removed := RemoveUsedCodesFromPool(length);
      RebuiltInSteps(cfg, s0, length);
      return false;
    }

    /** Adds the batches at the indexes below `currentStartIndex` again, in order. */
    method RegenerateAll(length: int, currentStartIndex: int)
      requires Valid() && IsInt64(currentStartIndex) && length in Pool.pools && Pool.pools[length] == []
      requires length in generators || currentStartIndex <= 0
      modifies Pool`pools
      ensures Pool.pools == old(Pool.pools)[length := Regenerated(Cfg(), length, currentStartIndex)]
    {
      var startIndex := 0;
      ghost var cfg, cleared := Cfg(), Pool.pools;
      RegeneratedNone(cfg, length, currentStartIndex);
      while startIndex < currentStartIndex
        invariant 0 <= startIndex && (startIndex <= currentStartIndex || startIndex == 0)
        invariant Pool.pools == cleared[length := Regenerated(cfg, length, startIndex)]
      {
        RegeneratedNext(cfg, cleared, length, startIndex);
        var added := RegenerateBatchAtIndex(length, startIndex);
        startIndex := startIndex + 1;
      }
    }

    /** Adds one batch again; an index the generator rejects adds nothing. */
    method RegenerateBatchAtIndex(length: int, startIndex: int) returns (added: int)
      requires Valid() && length in generators && 0 <= startIndex < TWO_63
      modifies Pool`pools
      ensures Pool.pools ==
        if startIndex > Cfg().steps[length] then old(Pool.pools)
        else Appended(old(Pool.pools), length,
                      BatchCodes(length, Cfg().steps[length], startIndex, batchGenerateSize))
      ensures added == if startIndex > Cfg().steps[length] then 0 else batchGenerateSize
    {
      assert Cfg().steps[length] == generators[length].step;
      var batch := generators[length].GenerateBatchNumbers(length, startIndex);
      if batch.None? {
        return 0;
      }
      AddBatch(length, batch.value, startIndex, generators[length].step);
      added := |batch.value|;
    }

    /** Takes the codes of all Active and Expired links out of the pool, a page of links at a time. */
    method RemoveUsedCodesFromPool(length: int) returns (totalRemoved: int)
      requires Valid() && length in Pool.pools
      modifies Pool`pools
      ensures Pool.pools == old(Pool.pools)[length := RemoveAll(old(Pool.pools)[length], UsedCodes(Repo.links, length))]
      ensures totalRemoved == |Sorted(WithStatus(Repo.links, length, {Active, Expired}))|
    {
      var fromID, limit := 0, 1000;
      var statuses := [Active, Expired];
      assert Elements(statuses) == {Active, Expired};
      ghost var live, base, done := WithStatus(Repo.links, length, {Active, Expired}), Pool.pools[length], [];
      totalRemoved := 0;
      RemovingStarts(Repo.Abs(), live, base);
      while true
        invariant length in Pool.pools && Pool.pools == old(Pool.pools)[length := Pool.pools[length]]
        invariant Removing(Repo.links, live, base, Pool.pools[length], done, fromID) && totalRemoved == |done|
        decreases After(Repo.links.Keys, fromID)
      {
        var links := Repo.List(length, statuses, limit, fromID, true);
        if |links| == 0 {
          RemovingEnds(Repo.links, live, base, Pool.pools[length], done, fromID, limit);
          break;
        }
        RemovingPage(Repo.links, live, base, Pool.pools[length], done, fromID, limit, links);
        RemovePage(length, links);
        totalRemoved, done := totalRemoved + |links|, done + Ids(links);
        fromID := links[|links| - 1].id;
      }
    }

    /** Takes the codes of one page of links out of the pool. */
    method RemovePage(length: int, links: seq<ShortLink>)
      requires length in Pool.pools
      modifies Pool`pools
      ensures Pool.pools == old(Pool.pools)[length := RemovedPage(old(Pool.pools)[length], links)]
    {
      for i := 0 to |links|
        invariant Pool.pools == old(Pool.pools)[length := RemovedPage(old(Pool.pools)[length], links[..i])]
      {
        assert links[..i + 1][..i] == links[..i];
        Pool.Remove(length, links[i].code);
      }
      assert links[..|links|] == links;
    }
  }

  // ---- start-up ----

  predicate IsGenerator(g: ShortCodeGenerator, L: nat, batch: int) {
    g.length == L && batch >= 1 && g.batchSize == batch && g.step == Step(L, batch)
  }

  lemma {:induction false} GenerateAnyTime(cfg: Config, s: Sys, length: int, now: int)
    ensures GenerateBatch(cfg, s.(now := now), length) == GenerateBatch(cfg, s, length).(now := now)
  {
  }

  lemma {:induction false} AppendedNext(pools: Pools, length: nat, step: int, index: int, i: nat)
    ensures Appended(if i == 0 then pools else Appended(pools, length, BatchCodes(length, step, index, i)), length,
                     [BatchCode(length, step, index, i)])
      == Appended(pools, length, BatchCodes(length, step, index, i + 1))
  {
    var pool, code := PoolOf(pools, length), BatchCode(length, step, index, i);
    var codes := BatchCodes(length, step, index, i);
    assert BatchCodes(length, step, index, i + 1) == codes + [code];
    assert pool + codes + [code] == pool + (codes + [code]);
    if i == 0 { assert pool + codes == pool; }
  }
}
