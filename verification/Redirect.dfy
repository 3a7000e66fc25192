/** Following short links (cores/http.go, cores/lru.go): many requests interleaved with the service's steps. */
module Redirect {
  import opened Collections
  import opened Links
  import opened MemoryPool
  import opened MemoryCache
  import opened Rows
  import opened Lifecycle
  import opened Agreement
  import opened Flight

  /** A link in the process-local LRU and when it was put there. */
  datatype Entry = Entry(link: string, at: int)

  /** A request that has its link; `fetched` says that it came from the cache and is to be kept in the LRU. */
  datatype Pending = Pending(code: string, link: string, started: int, fetched: bool)

  /** An Add or Update that has written the cache and not yet the row: a new one, or the `target` it found. */
  datatype HalfWrite = HalfWrite(
    code: string, title: string, link: string, expire: int, target: Option<int>, started: int)

  type Writes = map<int, HalfWrite>

  datatype World = World(fine: Fine, writes: Writes, lru: map<string, Entry>, handlers: map<int, Pending>)

  /**
    A step of the service, its sweeps or the clock; the two halves of an Add or Update; one step of
    request `h`; or the LRU forgetting entries. A Create is a Pull and then the halves of an Add.
   */
  datatype Action =
    | Work(a: Act)
    | Pull(length: int)
    | BeginAdd(k: int, code: string, title: string, link: string, expire: int)
    | BeginUpdate(k: int, code: string, title: string, link: string, expire: int)
    | Finish(k: int)
    | Hit(h: int, code: string)
    | Fetch(h: int, code: string)
    | Keep(h: int)
    | Redirect(h: int)
    | Evict(codes: set<string>)

  function OnSys(w: World, s: Sys): World {
    w.(fine := w.fine.(sys := s))
  }

  function CachePut(s: Sys, code: string, link: string, expire: int): Sys {
    s.(cache := Put(s.cache, |code|, code, CacheItem(link, expire)))
  }

  function Begun(w: World, k: int, x: HalfWrite): World {
    OnSys(w, CachePut(w.fine.sys, x.code, x.link, x.expire)).(writes := w.writes[k := x])
  }

  /** The row half; an update writes through the pointer it found, and fails if that row is gone. */
  function RowWritten(m: Store, x: HalfWrite): Store {
    match x.target
    case None => Inserted(m, NewRow(x.code, x.title, x.link, x.expire))
    case Some(id) =>
      if id in m.links then Replaced(m, m.links[id].(link := x.link, title := x.title, expire := x.expire)) else m
  }

  /** The LRU's contract: an entry answers up to `ttl` after it was added, if it is still there. */
  function Remembered(lru: map<string, Entry>, code: string, now: int, ttl: int): Option<string> {
    if code in lru && now <= lru[code].at + ttl then Some(lru[code].link) else None
  }

  /** A request may go to the cache even while the LRU knows the code: it may have looked there earlier. */
  ghost function Next(cfg: Config, ttl: int, w: World, a: Action): World {
    var s := w.fine.sys;
    match a
    case Work(a) => w.(fine := FineStep(cfg, w.fine, a))
    case Pull(length) => OnSys(w, s.(pools := Pulled(s.pools, length)))
    case BeginAdd(k, code, title, link, expire) =>
      if k in w.writes then w else Begun(w, k, HalfWrite(code, title, link, expire, None, s.now))
    case BeginUpdate(k, code, title, link, expire) =>
      if k in w.writes || Found(s.repo, code).None? then w
      else Begun(w, k, HalfWrite(code, title, link, expire, Some(s.repo.codeToID[code]), s.now))
    case Finish(k) =>
      if k !in w.writes then w
      else OnSys(w, s.(repo := RowWritten(s.repo, w.writes[k]))).(writes := w.writes - {k})
    case Hit(h, code) =>
      var link := Remembered(w.lru, code, s.now, ttl);
      if h in w.handlers || link.None? then w
      else w.(handlers := w.handlers[h := Pending(code, link.value, s.now, false)])
    case Fetch(h, code) =>
      var item := CachedItem(s, code);
      var looked := OnSys(w, Apply(cfg, s, Lookup(code)));
      if h in w.handlers || item.None? || item.value.link == "" then looked
      else looked.(handlers := w.handlers[h := Pending(code, item.value.link, s.now, true)])
    case Keep(h) =>
      if h !in w.handlers || !w.handlers[h].fetched then w
      else
        var p := w.handlers[h];
        w.(lru := w.lru[p.code := Entry(p.link, s.now)], handlers := w.handlers[h := p.(fetched := false)])
    case Redirect(h) => w.(handlers := w.handlers - {h})
    case Evict(codes) => w.(lru := w.lru - codes)
  }

  ghost function Perform(cfg: Config, ttl: int, w: World, actions: seq<Action>): World {
    if actions == [] then w
    else Next(cfg, ttl, Perform(cfg, ttl, w, actions[..|actions| - 1]), actions[|actions| - 1])
  }

  predicate BeingWritten(writes: Writes, code: string) {
    exists k :: k in writes.Keys && writes[k].code == code
  }

  /** Codes whose links or cache entries an event moves. */
  predicate Touches(cfg: Config, s: Sys, e: Event, code: string) {
    match e
    case Create(length, _, _, _) => 1 <= length <= cfg.max && Oldest(s.pools, length) == code
    case Add(c, _, _, _) => c == code
    case Update(c, _, _, _) => c == code
    case Remove(c) => c == code
    case ExpireOne(id) => id in s.repo.links && s.repo.links[id].code == code
    case RecycleOne(id) => id in s.repo.links && s.repo.links[id].code == code
    case _ => false
  }

  predicate SameAnswer(x: HalfWrite, link: string, expire: int, now: int) {
    (x.link == link && x.expire == expire) || (x.expire < now && expire < now)
  }

  /** Where the event meets the code of a half-done write, the cache stays ahead by that write. */
  predicate Spares(cfg: Config, s: Sys, e: Event, x: HalfWrite) {
    match e
    case Create(length, _, link, expire) =>
      1 <= length <= cfg.max && Oldest(s.pools, length) == x.code ==>
        x.target.None? && SameAnswer(x, link, expire, s.now)
    case Add(code, _, link, expire) => code == x.code ==> x.target.None? && SameAnswer(x, link, expire, s.now)
    case Update(code, _, link, expire) =>
      code == x.code && Found(s.repo, code).Some? ==> SameAnswer(x, link, expire, s.now)
    case Remove(code) => code == x.code ==> x.target.None? && x.expire < s.now
    case ExpireOne(id) =>
      MayExpire(s, id) && s.repo.links[id].code == x.code ==>
        x.expire < s.now && (x.target.Some? ==> x.expire < x.started)
    case _ => true
  }

  /**
    The step's own guard, which an update of a link being written need not meet; and all half-done writes
    are spared.
   */
  ghost predicate SparingGuard(cfg: Config, s: Sys, writes: Writes, e: Event) {
    && ((e.Update? && BeingWritten(writes, e.code)) || AgreementGuard(cfg, s, e))
    && forall k :: k in writes.Keys ==> Spares(cfg, s, e, writes[k])
  }

  ghost predicate WorkGuard(cfg: Config, w: World, a: Act) {
    && FlightGuard(cfg, w.fine, a)
    && (Coarse(w.fine.tasks, a).Some? ==>
          SparingGuard(cfg, View(w.fine), w.writes, Coarse(w.fine.tasks, a).value))
  }

  /** No other write of the link is under way, and an update finds it Active or sets an expiry that has passed. */
  predicate MayBegin(s: Sys, writes: Writes, x: HalfWrite) {
    && !BeingWritten(writes, x.code)
    && (x.target.Some? ==>
          && Found(s.repo, x.code).Some? && Found(s.repo, x.code).value.id == x.target.value
          && (Found(s.repo, x.code).value.status == Active || x.expire < x.started))
  }

  /** The row half meets no live link and no row in flight. */
  predicate FinishGuard(cfg: Config, w: World, x: HalfWrite) {
    match x.target
    case None => !LiveCode(View(w.fine).repo, x.code) && !InFlight(w.fine, x.code)
    case Some(_) => FlightGuard(cfg, w.fine, Do(Update(x.code, x.title, x.link, x.expire)))
  }

  /** What a step must meet so that cache and rows stay in agreement but for the links being written. */
  ghost predicate SoundGuard(cfg: Config, w: World, a: Action) {
    match a
    case Work(a) => WorkGuard(cfg, w, a)
    case BeginAdd(k, code, title, link, expire) =>
      k !in w.writes ==> MayBegin(View(w.fine), w.writes, HalfWrite(code, title, link, expire, None, w.fine.sys.now))
    case BeginUpdate(k, code, title, link, expire) =>
      var m := w.fine.sys.repo;
      k !in w.writes && Found(m, code).Some? ==>
        MayBegin(View(w.fine), w.writes, HalfWrite(code, title, link, expire, Some(m.codeToID[code]), w.fine.sys.now))
    case Finish(k) => k in w.writes ==> FinishGuard(cfg, w, w.writes[k])
    case _ => true
  }

  /** Every step meets its guard; no write takes longer than `lag` and no request longer than `delay`. */
  ghost predicate Allowed(cfg: Config, delay: int, lag: int, w: World, a: Action) {
    && SoundGuard(cfg, w, a)
    && match a {
         case Finish(k) => k in w.writes ==> w.fine.sys.now - w.writes[k].started <= lag
         case Keep(h) => h in w.handlers ==> w.fine.sys.now - w.handlers[h].started <= delay
         case Redirect(h) => h in w.handlers ==> w.fine.sys.now - w.handlers[h].started <= delay
         case _ => true
       }
  }

  ghost predicate AllAllowed(cfg: Config, ttl: int, delay: int, lag: int, w: World, actions: seq<Action>) {
    actions != [] ==>
      var front := actions[..|actions| - 1];
      && AllAllowed(cfg, ttl, delay, lag, w, front)
      && Allowed(cfg, delay, lag, Perform(cfg, ttl, w, front), actions[|actions| - 1])
  }

  function NewWorld(now: int): World {
    World(Fine(Empty(now), map[]), map[], map[], map[])
  }

  // ---- agreement, but for the links being written ----

  predicate AgreesAt(s: Sys, code: string) {
    CachedItem(s, code) == ActiveItem(s, code)
  }

  ghost predicate Tracks(s: Sys) {
    WellFormed(s.repo) && AllTracked(s.repo)
  }

  /** The cache is ahead by this write, and an update's row is still Active, or the update was of no effect. */
  predicate Ahead(s: Sys, x: HalfWrite) {
    && x.started <= s.now
    && CachedItem(s, x.code) == (if x.expire >= s.now then Some(CacheItem(x.link, x.expire)) else None)
    && (x.target.Some? ==>
          && Found(s.repo, x.code).Some? && Found(s.repo, x.code).value.id == x.target.value
          && (Found(s.repo, x.code).value.status == Active || x.expire < x.started))
  }

  ghost predicate AgreesBut(s: Sys, writes: Writes) {
    && Tracks(s)
    && (forall c: string :: !BeingWritten(writes, c) ==> AgreesAt(s, c))
    && (forall k :: k in writes ==> Ahead(s, writes[k]))
    && (forall j, k :: j in writes && k in writes && writes[j].code == writes[k].code ==> j == k)
  }

  /** Rows in flight are intact, and cache and rows agree but for the links being written. */
  ghost predicate Sound(w: World) {
    Intact(w.fine) && AgreesBut(View(w.fine), w.writes)
  }

  // ---- what was served when ----

  /** An Active link with the code and URL, unexpired up to `lag`. */
  predicate ServedWithin(s: Sys, id: int, code: string, url: string, lag: int) {
    && id in s.repo.links && s.repo.links[id].status == Active && s.repo.links[id].code == code
    && s.repo.links[id].link == url && s.repo.links[id].expire >= s.now - lag
  }

  ghost predicate HasLink(s: Sys, code: string, url: string, lag: int) {
    exists id :: ServedWithin(s, id, code, url, lag)
  }

  /** After some step of the run, at a time between `from` and `to`, an Active link with the code had the URL. */
  ghost predicate Had(cfg: Config, ttl: int, lag: int, w: World, actions: seq<Action>, code: string, url: string,
          from: int, to: int) {
    exists k :: 0 <= k <= |actions| && HadAt(cfg, ttl, lag, w, actions[..k], code, url, from, to)
  }

  ghost predicate HadAt(cfg: Config, ttl: int, lag: int, w: World, actions: seq<Action>, code: string, url: string,
          from: int, to: int) {
    var s := Perform(cfg, ttl, w, actions).fine.sys;
    from <= s.now <= to && HasLink(s, code, url, lag)
  }

  /** A write of this link, begun by `to`, is under way. */
  predicate Coming(w: World, code: string, url: string, from: int, to: int) {
    from <= w.fine.sys.now && exists k :: k in w.writes.Keys && Brings(w.writes[k], code, url, to)
  }

  predicate Brings(x: HalfWrite, code: string, url: string, to: int) {
    x.code == code && x.link == url && x.started <= x.expire && x.started <= to
  }

  /** A link had the URL between `from` and `to`, or will have it at most `lag` later. */
  ghost predicate Backed(cfg: Config, ttl: int, lag: int, w: World, actions: seq<Action>, code: string, url: string,
          from: int, to: int) {
    || Had(cfg, ttl, lag, w, actions, code, url, from, to + lag)
    || Coming(Perform(cfg, ttl, w, actions), code, url, from, to)
  }

  /** What the LRU and the requests know. */
  ghost predicate EntryBacked(cfg: Config, ttl: int, delay: int, lag: int, w: World, actions: seq<Action>,
          code: string, e: Entry) {
    Backed(cfg, ttl, lag, w, actions, code, e.link, e.at - delay, e.at)
  }

  ghost predicate PendingBacked(cfg: Config, ttl: int, delay: int, lag: int, w: World, actions: seq<Action>,
          p: Pending) {
    Backed(cfg, ttl, lag, w, actions, p.code, p.link,
      if p.fetched then p.started else p.started - ttl - delay, p.started)
  }

  ghost predicate AllBacked(cfg: Config, ttl: int, delay: int, lag: int, w: World, actions: seq<Action>) {
    var v := Perform(cfg, ttl, w, actions);
    && (forall c :: c in v.lru ==>
      v.lru[c].at <= v.fine.sys.now && EntryBacked(cfg, ttl, delay, lag, w, actions, c, v.lru[c]))
    && (forall h :: h in v.handlers ==>
      v.handlers[h].started <= v.fine.sys.now && PendingBacked(cfg, ttl, delay, lag, w, actions, v.handlers[h]))
  }
}
