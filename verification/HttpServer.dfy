/** ShortLinkService.HttpHandle of cores/http.go. */
module HttpServer {
  import opened Collections
  import opened MemoryCache
  import opened Lifecycle
  import opened Agreement
  import opened Flight
  import Recorder
  import opened Service
  import opened Redirect
  import opened Staleness

  datatype Response = OK | Management(op: string) | NotFound | RedirectTo(link: string)

  const PREFIX := "__"

  /** The requests one server process handles; without `statsRecorder` hits are not counted. */
  class ShortLinkServer {
    const service: ShortLinkService
    const statsRecorder: Recorder.StatsRecorder?
    var memLRUCache: map<string, Entry>
    const memLRUCacheTTL: int

    ghost function Abs(): World
      reads this, service.Repo, service.Pool, service.Cache, service.clock
    {
      World(Fine(service.Abs(), map[]), map[], memLRUCache, map[])
    }

    constructor (service: ShortLinkService, statsRecorder: Recorder.StatsRecorder?, memLRUCacheTTL: int)
      ensures this.service == service && this.statsRecorder == statsRecorder && this.memLRUCacheTTL == memLRUCacheTTL
      ensures memLRUCache == map[]
    {
      this.service, this.statsRecorder, this.memLRUCacheTTL := service, statsRecorder, memLRUCacheTTL;
      memLRUCache := map[];
    }

    method GetMemLRUCache(code: string) returns (link: string, ok: bool)
      modifies service.clock
      ensures old(service.clock.now) <= service.clock.now
      ensures match Remembered(memLRUCache, code, service.clock.now, memLRUCacheTTL)
              case Some(known) => ok && link == known
              case None => !ok
    {
      var now := service.clock.Read();
      if code in memLRUCache && now <= memLRUCache[code].at + memLRUCacheTTL {
        return memLRUCache[code].link, true;
      }
      return "", false;
    }

    /** Other entries may be dropped to make room, or because they are over age. */
    method AddMemLRUCache(code: string, link: string) returns (ghost evicted: set<string>)
      modifies this`memLRUCache, service.clock
      ensures old(service.clock.now) <= service.clock.now
      ensures memLRUCache == (old(memLRUCache) - evicted)[code := Entry(link, service.clock.now)]
    {
      var now := service.clock.Read();
      var gone: set<string> :| gone <= memLRUCache.Keys;
      memLRUCache := (memLRUCache - gone)[code := Entry(link, now)];
      evicted := gone;
    }

    /** LRU first, then cache, then into the LRU; nothing when neither has a link. */
    method FindLink(code: string, ghost h: int)
      returns (found: Option<string>, ghost looked: int, ghost fetched: int, ghost trace: seq<Action>)
      requires service.Valid()
      modifies this`memLRUCache, service.Cache, service.clock
      ensures service.Valid() && old(service.clock.now) <= looked <= fetched <= service.clock.now
      ensures found == Link(Remembered(old(memLRUCache), code, looked, memLRUCacheTTL),
                            Answer(old(service.Cache.cache), |code|, code, fetched))
      ensures Perform(service.Cfg(), memLRUCacheTTL, old(Abs()), trace) ==
        Abs().(handlers := if found.Some? then map[h := Pending(code, found.value, fetched, false)] else map[])
      ensures forall a :: a in trace ==> !a.Redirect?
    {
      ghost var cfg, ttl, w := service.Cfg(), memLRUCacheTTL, Abs();
      var link, ok := GetMemLRUCache(code);
      looked, fetched := service.clock.now, service.clock.now;
      if ok {
        HitTrace(cfg, ttl, w, h, code, looked);
        return Some(link), looked, fetched, [Work(Do(Tick(looked))), Hit(h, code)];
      }
      link, ok := service.Cache.Get(|code|, code);
      fetched := service.clock.now;
      if !ok || link == "" {
        MissTrace(cfg, ttl, w, h, code, fetched);
        return None, looked, fetched, [Work(Do(Tick(fetched))), Fetch(h, code)];
      }
      ghost var evicted := AddMemLRUCache(code, link);
      FetchTrace(cfg, ttl, w, h, code, fetched, evicted, service.clock.now);
      found := Some(link);
      trace := [Work(Do(Tick(fetched))), Fetch(h, code), Evict(evicted), Work(Do(Tick(service.clock.now))), Keep(h)];
    }

    /**
      Which answer a request gets. `looked` and `fetched` are the clock readings of the two lookups,
      and `trace` the steps the request took; `h` is any name for it.
     */
    method HttpHandle(isOptions: bool, path: string, ghost h: int)
      returns (response: Response, ghost looked: int, ghost fetched: int, ghost trace: seq<Action>)
      requires |path| >= 1 && service.Valid()
      modifies this`memLRUCache, service.Cache, service.clock, statsRecorder
      ensures service.Valid() && Abs() == Perform(service.Cfg(), memLRUCacheTTL, old(Abs()), trace)
      ensures old(service.clock.now) <= looked <= fetched <= service.clock.now
      ensures isOptions || path[1..] == "" ==> response == OK
      ensures !isOptions && path[1..] != "" && "__" <= path[1..] ==> response == Management(path[3..])
      ensures IsCode(isOptions, path[1..]) ==>
        Finds(response, service.maxCodeLength, path[1..],
              Remembered(old(memLRUCache), path[1..], looked, memLRUCacheTTL),
              Answer(old(service.Cache.cache), |path[1..]|, path[1..], fetched))
      ensures IsCode(isOptions, path[1..]) && Consistent(old(service.Abs())) && old(memLRUCache) == map[] ==>
        LeadsToLinks(response, service.maxCodeLength, path[1..], old(service.Abs()).(now := fetched))
      ensures match response
              case RedirectTo(link) => Answered(service.Cfg(), memLRUCacheTTL, old(Abs()), trace, h, path[1..], link)
              case _ => forall a :: a in trace ==> !a.Redirect?
      ensures statsRecorder != null ==>
        statsRecorder.Abs() ==
          if response.RedirectTo? then Recorder.Next(old(statsRecorder.Abs()), Recorder.Action.Record(path[1..]))
          else old(statsRecorder.Abs())
    {
      looked, fetched, trace := service.clock.now, service.clock.now, [];
      if isOptions {
        return OK, looked, fetched, trace;
      }
      var code := path[1..];
      if code == "" {
        return OK, looked, fetched, trace;
      }
      if PREFIX <= code {
        return Management(code[|PREFIX|..]), looked, fetched, trace;
      }
      response, looked, fetched, trace := HandleCode(code, h);
      if old(memLRUCache) == map[] { FindsLinks(response, service.maxCodeLength, code, old(service.Abs()), fetched); }
    }

    /** The request is for a code. */
    method HandleCode(code: string, ghost h: int)
      returns (response: Response, ghost looked: int, ghost fetched: int, ghost trace: seq<Action>)
      requires service.Valid()
      modifies this`memLRUCache, service.Cache, service.clock, statsRecorder
      ensures service.Valid() && Abs() == Perform(service.Cfg(), memLRUCacheTTL, old(Abs()), trace)
      ensures old(service.clock.now) <= looked <= fetched <= service.clock.now
      ensures Finds(response, service.maxCodeLength, code, Remembered(old(memLRUCache), code, looked, memLRUCacheTTL),
                    Answer(old(service.Cache.cache), |code|, code, fetched))
      ensures match response
              case RedirectTo(link) => Answered(service.Cfg(), memLRUCacheTTL, old(Abs()), trace, h, code, link)
              case _ => forall a :: a in trace ==> !a.Redirect?
      ensures statsRecorder != null ==>
        statsRecorder.Abs() ==
          if response.RedirectTo? then Recorder.Next(old(statsRecorder.Abs()), Recorder.Action.Record(code))
          else old(statsRecorder.Abs())
    {
      looked, fetched, trace := service.clock.now, service.clock.now, [];
      if |code| > service.maxCodeLength {
        return NotFound, looked, fetched, trace;
      }
      var found;
      found, looked, fetched, trace := FindLink(code, h);
      if found.None? {
        return NotFound, looked, fetched, trace;
      }
      if statsRecorder != null {
        statsRecorder.Record(code);
      }
      AnsweredNext(service.Cfg(), memLRUCacheTTL, old(Abs()), trace, h);
      trace := trace + [Action.Redirect(h)];
      response := RedirectTo(found.value);
    }
  }

  /** A link in the LRU goes first; an empty link in the cache is no link. */
  function Link(known: Option<string>, cached: Option<CacheItem>): Option<string> {
    if known.Some? then known
    else if cached.Some? && cached.value.link != "" then Some(cached.value.link)
    else None
  }

  /** Neither a preflight, the root, nor a management path. */
  predicate IsCode(isOptions: bool, code: string) {
    !isOptions && code != "" && !("__" <= code)
  }

  /**
    A code of at most `max` characters redirects to what the LRU remembers, or else to a non-empty link
    the cache answers; any other request for a code finds nothing.
   */
  ghost predicate Finds(response: Response, max: int, code: string, known: Option<string>, cached: Option<CacheItem>) {
    && (response == NotFound || response.RedirectTo?)
    && forall url :: response == RedirectTo(url) <==>
         && |code| <= max
         && (known == Some(url) || (known == None && cached.Some? && cached.value.link == url && url != ""))
  }

  /** It redirects exactly to the URL of an Active, unexpired link with the code. */
  ghost predicate LeadsToLinks(response: Response, max: int, code: string, s: Sys) {
    && (response == NotFound || response.RedirectTo?)
    && forall url :: response == RedirectTo(url) <==>
         |code| <= max && url != "" && exists id :: Serves(s, id, code, url)
  }

  lemma {:induction false} FindsLinks(response: Response, max: int, code: string, s: Sys, now: int)
    requires s.now <= now && Finds(response, max, code, None, Answer(s.cache, |code|, code, now))
    ensures Consistent(s) ==> LeadsToLinks(response, max, code, s.(now := now))
  {
    if Consistent(s) {
      var t := s.(now := now);
      TickAgrees(s, now);
      assert CachedItem(t, code) == Answer(s.cache, |code|, code, now);
      forall url
        ensures response == RedirectTo(url) <==> |code| <= max && url != "" && exists id :: Serves(t, id, code, url)
      {
        CacheRefinesRepository(t, code, url);
      }
    }
  }

  lemma {:induction false} AnsweredNext(cfg: Config, ttl: int, w: World, trace: seq<Action>, h: int)
    requires h in Perform(cfg, ttl, w, trace).handlers
    ensures var v := Perform(cfg, ttl, w, trace);
      && Perform(cfg, ttl, w, trace + [Action.Redirect(h)]) == v.(handlers := v.handlers - {h})
      && Answered(cfg, ttl, w, trace + [Action.Redirect(h)], h, v.handlers[h].code, v.handlers[h].link)
  {
    PerformOne(cfg, ttl, w, trace, Action.Redirect(h));
    assert (trace + [Action.Redirect(h)])[..|trace|] == trace;
  }

  /** The last step answers request `h`, which the steps before gave this link for this code. */
  ghost predicate Answered(cfg: Config, ttl: int, w: World, trace: seq<Action>, h: int, code: string, link: string) {
    && trace != [] && trace[|trace| - 1] == Action.Redirect(h)
    && var before := Perform(cfg, ttl, w, trace[..|trace| - 1]);
       h in before.handlers && before.handlers[h].code == code && before.handlers[h].link == link
  }

  // ---- the steps of one request ----

  lemma {:induction false} HitTrace(cfg: Config, ttl: int, w: World, h: int, code: string, now: int)
    requires w.handlers == map[] && w.fine.sys.now <= now && Remembered(w.lru, code, now, ttl).Some?
    ensures Perform(cfg, ttl, w, [Work(Do(Tick(now))), Hit(h, code)]) ==
      OnSys(w, w.fine.sys.(now := now))
        .(handlers := map[h := Pending(code, Remembered(w.lru, code, now, ttl).value, now, false)])
  {
    PerformTwo(cfg, ttl, w, Work(Do(Tick(now))), Hit(h, code));
  }

  lemma {:induction false} MissTrace(cfg: Config, ttl: int, w: World, h: int, code: string, now: int)
    requires w.handlers == map[] && w.fine.sys.now <= now
    ensures var item := Answer(w.fine.sys.cache, |code|, code, now);
      Perform(cfg, ttl, w, [Work(Do(Tick(now))), Fetch(h, code)]) ==
        OnSys(w, w.fine.sys.(now := now, cache := LookedUp(w.fine.sys.cache, |code|, code, now)))
          .(handlers := if item.Some? && item.value.link != "" then map[h := Pending(code, item.value.link, now, true)]
                        else map[])
  {
    PerformTwo(cfg, ttl, w, Work(Do(Tick(now))), Fetch(h, code));
  }

  lemma {:induction false} FetchTrace(cfg: Config, ttl: int, w: World, h: int, code: string, now: int,
          evicted: set<string>, later: int)
    requires w.handlers == map[] && w.fine.sys.now <= now <= later
    requires Answer(w.fine.sys.cache, |code|, code, now).Some?
      && Answer(w.fine.sys.cache, |code|, code, now).value.link != ""
    ensures var link := Answer(w.fine.sys.cache, |code|, code, now).value.link;
      Perform(cfg, ttl, w, [Work(Do(Tick(now))), Fetch(h, code), Evict(evicted), Work(Do(Tick(later))), Keep(h)]) ==
        OnSys(w, w.fine.sys.(now := later, cache := LookedUp(w.fine.sys.cache, |code|, code, now)))
          .(lru := (w.lru - evicted)[code := Entry(link, later)], handlers := map[h := Pending(code, link, now, false)])
  {
    var a, b := [Work(Do(Tick(now))), Fetch(h, code)], [Evict(evicted), Work(Do(Tick(later))), Keep(h)];
    MissTrace(cfg, ttl, w, h, code, now);
    KeepTrace(cfg, ttl, Perform(cfg, ttl, w, a), h, evicted, later);
    PerformAppend(cfg, ttl, w, a, b);
    assert a + b == [Work(Do(Tick(now))), Fetch(h, code), Evict(evicted), Work(Do(Tick(later))), Keep(h)];
  }

  lemma {:induction false} KeepTrace(cfg: Config, ttl: int, w: World, h: int, evicted: set<string>, later: int)
    requires h in w.handlers && w.handlers[h].fetched && w.fine.sys.now <= later
    ensures var p := w.handlers[h];
      Perform(cfg, ttl, w, [Evict(evicted), Work(Do(Tick(later))), Keep(h)]) ==
        OnSys(w, w.fine.sys.(now := later))
          .(lru := (w.lru - evicted)[p.code := Entry(p.link, later)], handlers := w.handlers[h := p.(fetched := false)])
  {
    PerformThree(cfg, ttl, w, Evict(evicted), Work(Do(Tick(later))), Keep(h));
  }

  lemma {:induction false} PerformAppend(cfg: Config, ttl: int, w: World, a: seq<Action>, b: seq<Action>)
    ensures Perform(cfg, ttl, w, a + b) == Perform(cfg, ttl, Perform(cfg, ttl, w, a), b)
  {
    if b == [] {
      assert a + b == a;
    } else {
      PerformAppend(cfg, ttl, w, a, b[..|b| - 1]);
      assert (a + b)[..|a + b| - 1] == a + b[..|b| - 1];
    }
  }
}
