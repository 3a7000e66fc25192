/** What the rows, the index and the cache entries say after each step, in terms of what was written last. */
module LastWrite {
  import opened Collections
  import opened Base62
  import opened Generator
  import opened Links
  import opened MemoryPool
  import opened MemoryCache
  import opened Rows
  import opened Lifecycle
  import opened Agreement
  import opened Redirect
  import opened HalfWrites

  datatype Content = Content(title: string, link: string, expire: int)

  /** What a lookup by code finds. */
  function ContentAt(m: Store, code: string): Option<Content> {
    match Found(m, code)
    case Some(row) => Some(Content(row.title, row.link, row.expire))
    case None => None
  }

  /** The code a Create of the length takes. */
  function NextCode(pools: Pools, length: int): string {
    if PoolOf(pools, length) == [] then "" else PoolOf(pools, length)[0]
  }

  /** The content of a code after a step: only a Create, an Add or an Update writes, and only a Remove deletes. */
  function WrittenBy(cfg: Config, s: Sys, e: Event, code: string, before: Option<Content>): Option<Content> {
    match e
    case Create(length, title, link, expire) =>
      if 1 <= length <= cfg.max && NextCode(s.pools, length) == code then Some(Content(title, link, expire)) else before
    case Add(c, title, link, expire) => if c == code then Some(Content(title, link, expire)) else before
    case Update(c, title, link, expire) =>
      if c == code && before.Some? then Some(Content(title, link, expire)) else before
    case Remove(c) => if c == code then None else before
    case _ => before
  }

  ghost function LastWritten(cfg: Config, s: Sys, es: seq<Event>, code: string): Option<Content> {
    if es == [] then ContentAt(s.repo, code)
    else
      var front := es[..|es| - 1];
      WrittenBy(cfg, Run(cfg, s, front), es[|es| - 1], code, LastWritten(cfg, s, front, code))
  }

  lemma {:induction false} SweepKeepsContent(cfg: Config, s: Sys, e: Event, code: string)
    requires Tracks(s) && IsSweepOf(s, e, code)
    ensures ContentAt(Apply(cfg, s, e).repo, code) == ContentAt(s.repo, code)
  {
    var m := s.repo;
    if (e.ExpireOne? && MayExpire(s, e.id)) || (e.RecycleOne? && MayRecycle(s, e.id)) {
      assert RowTracked(m, e.id) && m.links[e.id].id == e.id;
    }
  }

  lemma {:induction false} UpdateContent(s: Sys, code: string, title: string, link: string, expire: int)
    requires WellFormed(s.repo)
    ensures ContentAt(UpdateLink(s, code, title, link, expire).repo, code)
      == if ContentAt(s.repo, code).Some? then Some(Content(title, link, expire)) else None
  {
    if Found(s.repo, code).Some? {
      assert s.repo.links[s.repo.codeToID[code]].id == s.repo.codeToID[code] && Found(s.repo, code).value.code == code;
    }
  }

  lemma {:induction false} StepContent(cfg: Config, s: Sys, e: Event, code: string)
    requires Tracks(s)
    ensures ContentAt(Apply(cfg, s, e).repo, code) == WrittenBy(cfg, s, e, code, ContentAt(s.repo, code))
  {
    if !Touches(cfg, s, e, code) {
      FoundUntouched(cfg, s, e, code);
    } else {
      match e
      case Update(c, title, link, expire) => UpdateContent(s, c, title, link, expire);
      case ExpireOne(id) => SweepKeepsContent(cfg, s, e, code);
      case RecycleOne(id) => SweepKeepsContent(cfg, s, e, code);
      case _ =>
    }
  }

  /**
    Over every guarded run a lookup by code finds the title, link and expiry of the last Create, Add or
    Update of the code, and nothing if none came after the last Remove. And the cache answers that
    link and expiry exactly while the link is Active and unexpired.
   */
  lemma {:induction false} LastWriteWins(cfg: Config, s: Sys, es: seq<Event>, code: string)
    requires Consistent(s) && Along(cfg, s, es, (t, e) => AgreementGuard(cfg, t, e))
    ensures var t, last := Run(cfg, s, es), LastWritten(cfg, s, es, code);
      && Consistent(t) && ContentAt(t.repo, code) == last
      && CachedItem(t, code) ==
           if last.Some? && Found(t.repo, code).value.status == Active && last.value.expire >= t.now
           then Some(CacheItem(last.value.link, last.value.expire)) else None
  {
    if es != [] {
      var front, e := es[..|es| - 1], es[|es| - 1];
      LastWriteWins(cfg, s, front, code);
      StepContent(cfg, Run(cfg, s, front), e, code);
      StepKeepsAgreementIff(cfg, Run(cfg, s, front), e);
    }
    var t := Run(cfg, s, es);
    assert CachedItem(t, code) == ActiveItem(t, code);
  }

  // ---- one step, row by row ----

  function EntryOf(cache: Cache, code: string): Option<CacheItem> {
    MemoryCache.Entry(cache, |code|, code)
  }

  /** The row a step writes or deletes, if it is one that is stored. */
  predicate Concerns(s: Sys, e: Event, id: int) {
    match e
    case Update(code, _, _, _) => code in s.repo.codeToID && s.repo.codeToID[code] == id
    case Remove(code) => code in s.repo.codeToID && s.repo.codeToID[code] == id
    case ExpireOne(k) => k == id
    case RecycleOne(k) => k == id
    case _ => false
  }

  /** Every step leaves all rows but the one it concerns, adds at most one, and keeps what a row was created with. */
  lemma {:induction false} OneRowChanges(cfg: Config, s: Sys, e: Event, id: int)
    requires WellFormed(s.repo)
    ensures var m, n := s.repo, Apply(cfg, s, e).repo;
      && (id in m.links && !Concerns(s, e, id) ==> id in n.links && n.links[id] == m.links[id])
      && (id in m.links && id in n.links ==>
            n.links[id].id == id && n.links[id].code == m.links[id].code && n.links[id].length == m.links[id].length)
      && (id !in m.links && id in n.links ==> id == m.nextID && n.links[id].status == Active && n.nextID == id + 1)
  {
    var m := s.repo;
    match e
    case Update(code, _, _, _) =>
      if Found(m, code).Some? { assert m.links[m.codeToID[code]].id == m.codeToID[code]; }
    case ExpireOne(k) => if k in m.links { assert m.links[k].id == k; }
    case RecycleOne(k) => if k in m.links { assert m.links[k].id == k; }
    case _ =>
  }

  /** A sweep marks exactly a row that is due; an expired link leaves the cache, and a recycled code joins its pool. */
  lemma {:induction false} SweepMarks(cfg: Config, s: Sys, id: int)
    requires WellFormed(s.repo) && id in s.repo.links
    ensures var row, t, u := s.repo.links[id], Apply(cfg, s, ExpireOne(id)), Apply(cfg, s, RecycleOne(id));
      && (if row.status == Active && row.expire < s.now then
            && t.repo.links == s.repo.links[id := row.(status := Expired)] && t.pools == s.pools
            && (forall c :: EntryOf(t.cache, c) == if c == row.code then None else EntryOf(s.cache, c))
          else t == s)
      && (if row.status == Expired && row.expire + 365 * 24 * 3600 * 1_000_000_000 < s.now then
            && u.repo.links == s.repo.links[id := row.(status := Recycled)] && u.cache == s.cache
            && u.pools == s.pools[row.length := PoolOf(s.pools, row.length) + [row.code]]
          else u == s)
  {
    assert s.repo.links[id].id == id && s.repo.links[id].length == |s.repo.links[id].code|;
  }

  /** A lookup deletes an entry past its expiry and no other. */
  lemma {:induction false} LookupDeletes(cfg: Config, s: Sys, code: string, c: string)
    ensures var t, item := Apply(cfg, s, Lookup(code)), EntryOf(s.cache, c);
      && t == s.(cache := t.cache)
      && EntryOf(t.cache, c) == if c == code && item.Some? && item.value.expireTime < s.now then None else item
  {
  }

  /** After a Remove neither cache entry nor index entry of the code is left, from whatever state; others stay. */
  lemma {:induction false} RemoveForgets(cfg: Config, s: Sys, code: string, c: string)
    ensures var t := Apply(cfg, s, Remove(code));
      && EntryOf(t.cache, c) == (if c == code then None else EntryOf(s.cache, c))
      && t.repo.codeToID == s.repo.codeToID - {code} && t.pools == s.pools
      && t.repo.links == s.repo.links - (if code in s.repo.codeToID then {s.repo.codeToID[code]} else {})
  {
  }

  /** Adding a link and removing it again leaves rows, index and pools as they were. */
  lemma {:induction false} RemoveUndoesAdd(cfg: Config, s: Sys, code: string, title: string, link: string, expire: int)
    requires WellFormed(s.repo) && code !in s.repo.codeToID
    ensures var t := Apply(cfg, Apply(cfg, s, Add(code, title, link, expire)), Remove(code));
      && t.repo == s.repo.(nextID := s.repo.nextID + 1) && t.pools == s.pools && t.now == s.now
      && forall c :: EntryOf(t.cache, c) == if c == code then None else EntryOf(s.cache, c)
  {
    var t := Apply(cfg, Apply(cfg, s, Add(code, title, link, expire)), Remove(code));
    assert s.repo.nextID !in s.repo.links;
    assert t.repo.links == s.repo.links && t.repo.codeToID == s.repo.codeToID;
  }

  lemma {:induction false} BatchInOrder(L: nat, step: int, index: int, B: nat)
    ensures forall i :: 0 <= i < B ==> BatchCodes(L, step, index, B)[i] == Encode(Wrap(index + i * step), L)
  {
    BatchCodesAt(L, step, index, B);
    forall i: nat | i < B ensures BatchCode(L, step, index, i) == Encode(Wrap(index + i * step), L) {
      NumberClosedForm(step, index, i);
    }
  }

  /** The codes a generation of the length adds: of the numbers a step apart, from the stored index on. */
  ghost predicate Strided(codes: seq<string>, L: int, index: int, step: int, B: int) {
    |codes| == B && forall i :: 0 <= i < B ==> codes[i] == Encode(Wrap(index + i * step), L)
  }

  /** Such codes are appended to the pool of the length, in order, one batch is counted, and nothing else changes. */
  ghost predicate BatchAdded(cfg: Config, s: Sys, t: Sys, L: int)
    requires L in cfg.steps
  {
    var index := Index(s.repo, L);
    exists codes :: Strided(codes, L, index, cfg.steps[L], cfg.batch)
      && t == s.(pools := s.pools[L := PoolOf(s.pools, L) + codes],
                 repo := s.repo.(startIndex := s.repo.startIndex[L := index + 1]))
  }

  /** That is what a generation does when the generator accepts the stored index, and nothing otherwise. */
  lemma {:induction false} GenerateAppends(cfg: Config, s: Sys, L: int)
    requires ValidConfig(cfg)
    ensures var t := Apply(cfg, s, Generate(L));
      if cfg.manual < L <= cfg.max && Index(s.repo, L) <= cfg.steps[L] then BatchAdded(cfg, s, t, L) else t == s
  {
    if cfg.manual < L <= cfg.max && Index(s.repo, L) <= cfg.steps[L] {
      var step, index := cfg.steps[L], Index(s.repo, L);
      BatchInOrder(L, step, index, cfg.batch);
      assert Strided(BatchCodes(L, step, index, cfg.batch), L, index, step, cfg.batch);
    }
  }
}
