/** The in-memory link cache of ext/memx/cache.go. */
module MemoryCache {
  import opened Collections
  import opened Links

  datatype CacheItem = CacheItem(link: string, expireTime: int)

  type Cache = map<int, map<string, CacheItem>>

  function Entry(cache: Cache, length: int, code: string): Option<CacheItem> {
    if length in cache && code in cache[length] then Some(cache[length][code]) else None
  }

  function Put(cache: Cache, length: int, code: string, item: CacheItem): Cache {
    cache[length := (if length in cache then cache[length] else map[])[code := item]]
  }

  function Dropped(cache: Cache, length: int, code: string): Cache {
    if length in cache then cache[length := cache[length] - {code}] else cache
  }

  /** What a lookup at `now` leaves: an entry past its expiry is deleted. */
  function LookedUp(cache: Cache, length: int, code: string, now: int): Cache {
    match Entry(cache, length, code)
    case Some(item) => if now > item.expireTime then Dropped(cache, length, code) else cache
    case None => cache
  }

  /** What a lookup at `now` answers. */
  function Answer(cache: Cache, length: int, code: string, now: int): Option<CacheItem> {
    match Entry(cache, length, code)
    case Some(item) => if now > item.expireTime then None else Some(item)
    case None => None
  }

  class MemoryShortLinkCache {
    var cache: Cache
    const clock: Clock

    constructor (clock: Clock)
      ensures cache == map[] && this.clock == clock
    {
      cache := map[];
      this.clock := clock;
    }

    method Get(length: int, code: string) returns (link: string, ok: bool)
      modifies this, clock
      ensures old(clock.now) <= clock.now
      ensures cache == LookedUp(old(cache), length, code, clock.now)
      ensures match Answer(old(cache), length, code, clock.now)
              case Some(item) => ok && link == item.link
              case None => !ok && link == ""
    {
      if length !in cache {
        return "", false;
      }
      if code !in cache[length] {
        return "", false;
      }
      var item := cache[length][code];
      var now := clock.Read();
      if now > item.expireTime {
        cache := cache[length := cache[length] - {code}];
        return "", false;
      }
      return item.link, true;
    }

    method Add(length: int, code: string, link: string, expireTime: int)
      modifies this
      ensures cache == Put(old(cache), length, code, CacheItem(link, expireTime))
    {
      if length !in cache {
        cache := cache[length := map[]];
      }
      cache := cache[length := cache[length][code := CacheItem(link, expireTime)]];
    }

    method Remove(length: int, code: string)
      modifies this
      ensures cache == Dropped(old(cache), length, code)
    {
      if length in cache {
        cache := cache[length := cache[length] - {code}];
      }
    }
  }
}
