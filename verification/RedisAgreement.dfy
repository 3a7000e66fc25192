/** The Redis cache over whole runs of the service, beside the in-memory one. */
module RedisAgreement {
  import opened Collections
  import opened Base62
  import opened Links
  import opened MemoryPool
  import opened MemoryCache
  import opened Rows
  import opened Lifecycle
  import opened Agreement
  import opened RedisCache

  function Removed(hashes: Hashes, length: int, code: string): Hashes {
    if length in hashes then hashes[length := hashes[length] - {code}] else hashes
  }

  /** What a lookup leaves: a readable value past its expiry is deleted. */
  function ReadOnce(hashes: Hashes, code: string, now: int): Hashes {
    if ValueExpired(hashes, |code|, code, now) then Removed(hashes, |code|, code) else hashes
  }

  /** What a step of the service in state `s` does to the Redis cache. */
  function OnRedis(cfg: Config, s: Sys, hashes: Hashes, e: Event): Hashes {
    match e
    case Create(length, _, link, expire) =>
      if length < 1 || length > cfg.max then hashes
      else Stored(hashes, |Oldest(s.pools, length)|, Oldest(s.pools, length), link, expire)
    case Add(code, _, link, expire) => Stored(hashes, |code|, code, link, expire)
    case Update(code, _, link, expire) =>
      if Found(s.repo, code).None? then hashes else Stored(hashes, |code|, code, link, expire)
    case Remove(code) => Removed(hashes, |code|, code)
    case ExpireOne(id) =>
      if MayExpire(s, id) then Removed(hashes, s.repo.links[id].length, s.repo.links[id].code) else hashes
    case Lookup(code) => ReadOnce(hashes, code, s.now)
    case _ => hashes
  }

  ghost function RedisRun(cfg: Config, s: Sys, es: seq<Event>): Hashes {
    if es == [] then map[]
    else OnRedis(cfg, Run(cfg, s, es[..|es| - 1]), RedisRun(cfg, s, es[..|es| - 1]), es[|es| - 1])
  }

  /** Expiry times whose second fits int64, as every time.Time of the next billions of years does. */
  predicate Timed(e: Event) {
    match e
    case Create(_, _, _, expire) => IsInt64(Unix(expire))
    case Add(_, _, _, expire) => IsInt64(Unix(expire))
    case Update(_, _, _, expire) => IsInt64(Unix(expire))
    case _ => true
  }

  /** A link Redis can serve: no newline in it, and not in the cut-off fraction of its last second. */
  predicate Servable(item: CacheItem, now: int) {
    '\n' !in item.link && now <= Unix(item.expireTime) * SECOND
  }

  /** Redis answers a code as the in-memory cache does, where it can serve the link. */
  predicate FollowsAt(hashes: Hashes, cache: Cache, now: int, code: string) {
    StoredAnswer(hashes, |code|, code, now) ==
      match Answer(cache, |code|, code, now)
      case None => None
      case Some(item) => if Servable(item, now) then Some(item.link) else None
  }

  /** And it would at every later time. */
  ghost predicate Follows(hashes: Hashes, cache: Cache, now: int, code: string) {
    forall t :: t >= now ==> FollowsAt(hashes, cache, t, code)
  }

  lemma {:induction false} StoredFollows(hashes: Hashes, cache: Cache, now: int, code: string, link: string,
          expire: int, c: string)
    requires IsInt64(Unix(expire)) && Follows(hashes, cache, now, c)
    ensures Follows(Stored(hashes, |code|, code, link, expire),
      Put(cache, |code|, code, CacheItem(link, expire)), now, c)
  {
    var hashes' := Stored(hashes, |code|, code, link, expire);
    var cache' := Put(cache, |code|, code, CacheItem(link, expire));
    forall t | t >= now ensures FollowsAt(hashes', cache', t, c) {
      assert FollowsAt(hashes, cache, t, c);
      StoredFollowsAt(hashes, cache, t, code, link, expire, c);
    }
  }

  lemma {:induction false} StoredFollowsAt(hashes: Hashes, cache: Cache, t: int, code: string, link: string,
          expire: int, c: string)
    requires IsInt64(Unix(expire)) && FollowsAt(hashes, cache, t, c)
    ensures FollowsAt(Stored(hashes, |code|, code, link, expire),
                      Put(cache, |code|, code, CacheItem(link, expire)), t, c)
  {
    if c == code {
      AgreesWithMemoryIff(hashes, cache, |code|, code, link, expire, t);
      ValueRoundTrip(link, Unix(expire));
    } else {
      StoredElsewhere(hashes, cache, t, code, link, expire, c);
    }
  }

  lemma {:induction false} StoredElsewhere(hashes: Hashes, cache: Cache, t: int, code: string, link: string,
          expire: int, c: string)
    requires c != code
    ensures StoredAnswer(Stored(hashes, |code|, code, link, expire), |c|, c, t) == StoredAnswer(hashes, |c|, c, t)
    ensures Answer(Put(cache, |code|, code, CacheItem(link, expire)), |c|, c, t) == Answer(cache, |c|, c, t)
  {
  }

  lemma {:induction false} RemovedFollows(hashes: Hashes, cache: Cache, now: int, length: int, code: string, c: string)
    requires Follows(hashes, cache, now, c)
    ensures Follows(Removed(hashes, length, code), Dropped(cache, length, code), now, c)
  {
    forall t | t >= now ensures FollowsAt(Removed(hashes, length, code), Dropped(cache, length, code), t, c) {
      assert FollowsAt(hashes, cache, t, c);
    }
  }

  lemma {:induction false} LookupFollows(hashes: Hashes, cache: Cache, now: int, code: string, c: string)
    requires Follows(hashes, cache, now, c)
    ensures Follows(ReadOnce(hashes, code, now), LookedUp(cache, |code|, code, now), now, c)
  {
    forall t | t >= now ensures FollowsAt(ReadOnce(hashes, code, now), LookedUp(cache, |code|, code, now), t, c) {
      assert FollowsAt(hashes, cache, t, c);
    }
  }

  lemma {:induction false} StepFollows(cfg: Config, s: Sys, hashes: Hashes, e: Event, c: string)
    requires Follows(hashes, s.cache, s.now, c) && Timed(e)
    ensures Follows(OnRedis(cfg, s, hashes, e), Apply(cfg, s, e).cache, Apply(cfg, s, e).now, c)
  {
    match e
    case Create(length, _, link, expire) =>
      if 1 <= length <= cfg.max { StoredFollows(hashes, s.cache, s.now, Oldest(s.pools, length), link, expire, c); }
    case Add(code, _, link, expire) => StoredFollows(hashes, s.cache, s.now, code, link, expire, c);
    case Update(code, _, link, expire) =>
      if Found(s.repo, code).Some? { StoredFollows(hashes, s.cache, s.now, code, link, expire, c); }
    case Remove(code) => RemovedFollows(hashes, s.cache, s.now, |code|, code, c);
    case ExpireOne(id) =>
      if MayExpire(s, id) { RemovedFollows(hashes, s.cache, s.now, s.repo.links[id].length, s.repo.links[id].code, c); }
    case Lookup(code) => LookupFollows(hashes, s.cache, s.now, code, c);
    case _ =>
  }

  lemma {:induction false} FollowsThroughout(cfg: Config, now: int, es: seq<Event>, c: string)
    requires forall e :: e in es ==> Timed(e)
    ensures Follows(RedisRun(cfg, Empty(now), es), Run(cfg, Empty(now), es).cache, Run(cfg, Empty(now), es).now, c)
  {
    if es != [] {
      var front, e := es[..|es| - 1], es[|es| - 1];
      assert e in es && forall d :: d in front ==> d in es;
      FollowsThroughout(cfg, now, front, c);
      StepFollows(cfg, Run(cfg, Empty(now), front), RedisRun(cfg, Empty(now), front), e, c);
    }
  }

  /**
    Over every guarded run a lookup in the Redis cache hits with a URL exactly when an Active,
    unexpired link has that code and URL, the URL has no newline, and the link is not in the cut-off
    fraction of its last second.
   */
  lemma {:induction false} RedisCacheRefinesRepository(cfg: Config, now: int, es: seq<Event>, c: string, url: string)
    requires Along(cfg, Empty(now), es, (s, e) => AgreementGuard(cfg, s, e)) && forall e :: e in es ==> Timed(e)
    ensures var s := Run(cfg, Empty(now), es);
      StoredAnswer(RedisRun(cfg, Empty(now), es), |c|, c, s.now) == Some(url) <==>
        exists id :: Serves(s, id, c, url) && Servable(CacheItem(url, s.repo.links[id].expire), s.now)
  {
    var s := Run(cfg, Empty(now), es);
    FollowsThroughout(cfg, now, es, c);
    assert FollowsAt(RedisRun(cfg, Empty(now), es), s.cache, s.now, c);
    AgreementThroughout(cfg, now, es);
    assert CachedItem(s, c) == ActiveItem(s, c);
    forall id | Serves(s, id, c, url) ensures ActiveItem(s, c) == Some(CacheItem(url, s.repo.links[id].expire)) {
      assert RowTracked(s.repo, id);
    }
    if ActiveItem(s, c).Some? && ActiveItem(s, c).value.link == url {
      assert Serves(s, s.repo.codeToID[c], c, url);
    }
  }
}
