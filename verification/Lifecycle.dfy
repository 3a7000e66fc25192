/** The service of cores/service.go as a state machine over repository, pools, cache and clock. */
module Lifecycle {
  import opened Collections
  import opened Base62
  import opened Generator
  import opened Links
  import opened MemoryPool
  import opened MemoryCache
  import opened Rows

  /** `steps` maps each length that has a generator to the generator's step. */
  datatype Config = Config(manual: int, max: int, batch: int, steps: map<int, int>)

  /** The configuration the service constructor builds. */
  ghost predicate ValidConfig(cfg: Config) {
    && -1 <= cfg.manual && 1 <= cfg.batch
    && (forall L: int :: L in cfg.steps <==> cfg.manual < L <= cfg.max)
    && (forall L: nat :: L in cfg.steps ==> cfg.steps[L] == Step(L, cfg.batch))
  }

  datatype Sys = Sys(repo: Store, pools: Pools, cache: Cache, now: int)

  datatype Event =
    | Create(length: int, title: string, link: string, expire: int)
    | Add(code: string, title: string, link: string, expire: int)
    | Update(code: string, title: string, link: string, expire: int)
    | Remove(code: string)
    | Generate(length: int)
    | ExpireOne(id: int)
    | RecycleOne(id: int)
    | Rebuild(length: int)
    | Lookup(code: string)
    | Tick(now: int)

  function Empty(now: int): Sys {
    Sys(Store(map[], map[], map[], 1), map[], map[], now)
  }

  // ---- the steps ----

  function AddLink(s: Sys, code: string, title: string, link: string, expire: int): Sys {
    s.(cache := Put(s.cache, |code|, code, CacheItem(link, expire)),
       repo := Inserted(s.repo, NewRow(code, title, link, expire)))
  }

  /** An empty pool yields the empty code, which is added like any other. */
  function CreateLink(cfg: Config, s: Sys, length: int, title: string, link: string, expire: int): Sys {
    if length < 1 || length > cfg.max then s
    else AddLink(s.(pools := Pulled(s.pools, length)), Oldest(s.pools, length), title, link, expire)
  }

  /** No row with the code is an error that changes nothing; the status is not looked at. */
  function UpdateLink(s: Sys, code: string, title: string, link: string, expire: int): Sys {
    match Found(s.repo, code)
    case None => s
    case Some(row) =>
      s.(cache := Put(s.cache, |code|, code, CacheItem(link, expire)),
         repo := Replaced(s.repo, row.(link := link, title := title, expire := expire)))
  }

  function RemoveLink(s: Sys, code: string): Sys {
    s.(cache := Dropped(s.cache, |code|, code), repo := Deleted(s.repo, code))
  }

  /** A length without generator fails, and an exhausted one reports an error; both change nothing. */
  function GenerateBatch(cfg: Config, s: Sys, length: int): Sys {
    var index := Index(s.repo, length);
    if length < 0 || length !in cfg.steps || cfg.batch < 0 || index > cfg.steps[length] then s
    else s.(pools := Appended(s.pools, length, BatchCodes(length, cfg.steps[length], index, cfg.batch)),
            repo := Saved(s.repo, length, index + 1))
  }

  predicate MayExpire(s: Sys, id: int) {
    id in s.repo.links && s.repo.links[id].status == Active && s.repo.links[id].expire < s.now
  }

  function ExpireLink(s: Sys, id: int): Sys {
    if !MayExpire(s, id) then s
    else
      var row := s.repo.links[id];
      s.(cache := Dropped(s.cache, row.length, row.code), repo := Replaced(s.repo, row.(status := Expired)))
  }

  predicate MayRecycle(s: Sys, id: int) {
    id in s.repo.links && s.repo.links[id].status == Expired && s.repo.links[id].expire < s.now - YEAR
  }

  function RecycleLink(s: Sys, id: int): Sys {
    if !MayRecycle(s, id) then s
    else
      var row := s.repo.links[id];
      s.(pools := Appended(s.pools, row.length, [row.code]), repo := Replaced(s.repo, row.(status := Recycled)))
  }

  /** The codes of the Active and Expired links of a length, by increasing ID. */
  ghost function UsedCodes(links: map<int, ShortLink>, length: int): seq<string> {
    CodesOf(links, Sorted(WithStatus(links, length, {Active, Expired})))
  }

  function CodesOf(links: map<int, ShortLink>, ids: seq<int>): seq<string> {
    if ids == [] then []
    else CodesOf(links, ids[..|ids| - 1]) +
         (var id := ids[|ids| - 1]; if id in links then [links[id].code] else [])
  }

  /** The codes of all accepted batches below `n`; none without a generator. */
  function Regenerated(cfg: Config, length: int, n: int): seq<string> {
    if length < 0 || length !in cfg.steps || cfg.batch < 0 then []
    else AllCodes(length, cfg.batch, cfg.steps[length], n)
  }

  /** What has been generated for a length. */
  function Issued(cfg: Config, m: Store, length: int): seq<string> {
    Regenerated(cfg, length, Index(m, length))
  }

  ghost function RebuildPool(cfg: Config, s: Sys, length: int): Sys {
    if length < 1 || length > cfg.max then s
    else s.(pools := s.pools[length := RemoveAll(Issued(cfg, s.repo, length), UsedCodes(s.repo.links, length))])
  }

  ghost function Apply(cfg: Config, s: Sys, e: Event): Sys {
    match e
    case Create(length, title, link, expire) => CreateLink(cfg, s, length, title, link, expire)
    case Add(code, title, link, expire) => AddLink(s, code, title, link, expire)
    case Update(code, title, link, expire) => UpdateLink(s, code, title, link, expire)
    case Remove(code) => RemoveLink(s, code)
    case Generate(length) => GenerateBatch(cfg, s, length)
    case ExpireOne(id) => ExpireLink(s, id)
    case RecycleOne(id) => RecycleLink(s, id)
    case Rebuild(length) => RebuildPool(cfg, s, length)
    case Lookup(code) => s.(cache := LookedUp(s.cache, |code|, code, s.now))
    case Tick(now) => if now >= s.now then s.(now := now) else s
  }

  ghost function Run(cfg: Config, s: Sys, es: seq<Event>): Sys {
    if es == [] then s else Apply(cfg, Run(cfg, s, es[..|es| - 1]), es[|es| - 1])
  }

  /** `ok` holds of every step of the run, in the state the step is taken in. */
  ghost predicate Along(cfg: Config, s: Sys, es: seq<Event>, ok: (Sys, Event) -> bool) {
    es != [] ==>
      var front := es[..|es| - 1];
      Along(cfg, s, front, ok) && ok(Run(cfg, s, front), es[|es| - 1])
  }

  lemma {:induction false} RunOne(cfg: Config, s: Sys, es: seq<Event>, e: Event)
    ensures Run(cfg, s, es + [e]) == Apply(cfg, Run(cfg, s, es), e)
  {
    assert (es + [e])[..|es|] == es;
  }

  lemma {:induction false} RunAppend(cfg: Config, s: Sys, a: seq<Event>, b: seq<Event>)
    ensures Run(cfg, s, a + b) == Run(cfg, Run(cfg, s, a), b)
  {
    if b == [] {
      assert a + b == a;
    } else {
      RunAppend(cfg, s, a, b[..|b| - 1]);
      assert (a + b)[..|a + b| - 1] == a + b[..|b| - 1];
    }
  }

  // ---- start-up ----

  ghost function Steps(manual: int, max: int, batch: int): map<int, int> {
    map L | manual < L <= max :: if L >= 0 && batch >= 1 then Step(L, batch) else 0
  }

  lemma {:induction false} StepsValid(cfg: Config)
    requires -1 <= cfg.manual && 1 <= cfg.batch && cfg.steps == Steps(cfg.manual, cfg.max, cfg.batch)
    ensures ValidConfig(cfg)
  {
  }

  function StartedLength(cfg: Config, s: Sys, length: int): Sys {
    if |PoolOf(s.pools, length)| < 100 then GenerateBatch(cfg, s, length) else s
  }

  /** The state after the constructor has looked at the pools of all lengths up to `upTo`. */
  function Started(cfg: Config, s: Sys, upTo: int): Sys
    decreases upTo - cfg.manual
  {
    if upTo <= cfg.manual then s else StartedLength(cfg, Started(cfg, s, upTo - 1), upTo)
  }

  ghost predicate IndexesInt64(m: Store) {
    forall L :: IsInt64(Index(m, L))
  }

  /** The constructor began in `s0` and is in `t`, about to look at length `i`. */
  ghost predicate Starting(cfg: Config, s0: Sys, t: Sys, i: int) {
    t == Started(cfg, s0, i - 1) && forall L :: L >= i ==> IsInt64(Index(t.repo, L))
  }

  lemma {:induction false} StartingFirst(cfg: Config, s: Sys, i: int)
    requires i == cfg.manual + 1 && IndexesInt64(s.repo)
    ensures Starting(cfg, s, s, i)
  {
  }

  lemma {:induction false} StartingNext(cfg: Config, s0: Sys, t: Sys, i: int, now: int)
    requires Starting(cfg, s0, t, i) && i > cfg.manual
    ensures IsInt64(Index(t.repo, i)) && Starting(cfg, s0, StartedLength(cfg, t, i), i + 1)
    ensures StartedLength(cfg, t.(now := now), i) == StartedLength(cfg, t, i).(now := now)
  {
    var n := StartedLength(cfg, t, i);
    assert forall L :: L > i ==> Index(n.repo, L) == Index(t.repo, L);
  }

  // ---- rebuilding batch by batch ----

  lemma {:induction false} RegeneratedNext(cfg: Config, pools: Pools, length: nat, n: nat)
    requires length in cfg.steps && cfg.batch >= 0
    ensures pools[length := Regenerated(cfg, length, n + 1)] ==
      var before := pools[length := Regenerated(cfg, length, n)];
      if n > cfg.steps[length] then before
      else Appended(before, length, BatchCodes(length, cfg.steps[length], n, cfg.batch))
  {
    assert Regenerated(cfg, length, n) + [] == Regenerated(cfg, length, n);
  }

  lemma {:induction false} RegeneratedNone(cfg: Config, length: int, n: int)
    ensures Regenerated(cfg, length, 0) == [] && (n <= 0 ==> Regenerated(cfg, length, n) == [])
  {
  }

  lemma {:induction false} RebuiltInSteps(cfg: Config, s: Sys, length: int)
    requires 1 <= length <= cfg.max
    ensures var issued := Issued(cfg, s.repo, length);
      var filled := s.pools[length := []][length := issued];
      RebuildPool(cfg, s, length)
        == s.(pools := filled[length := RemoveAll(filled[length], UsedCodes(s.repo.links, length))])
  {
  }

  lemma {:induction false} RebuiltWithoutGenerator(cfg: Config, s: Sys, length: int)
    requires 1 <= length <= cfg.max && length !in cfg.steps
    ensures RebuildPool(cfg, s, length) == s.(pools := s.pools[length := []])
  {
    RemoveAllEmpty(UsedCodes(s.repo.links, length));
  }
}
