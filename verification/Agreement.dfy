/** The code index and the cache agree with the rows, step by step and over every run. */
module Agreement {
  import opened Collections
  import opened Links
  import opened MemoryPool
  import opened MemoryCache
  import opened Rows
  import opened Lifecycle

  /** What the cache answers for a code now. */
  function CachedItem(s: Sys, c: string): Option<CacheItem> {
    Answer(s.cache, |c|, c, s.now)
  }

  /** What the row its code leads to would answer. */
  function ActiveItem(s: Sys, c: string): Option<CacheItem> {
    match Found(s.repo, c)
    case Some(row) =>
      if row.status == Active && row.expire >= s.now then Some(CacheItem(row.link, row.expire)) else None
    case None => None
  }

  ghost predicate CacheAgrees(s: Sys) {
    forall c: string :: CachedItem(s, c) == ActiveItem(s, c)
  }

  ghost predicate Consistent(s: Sys) {
    WellFormed(s.repo) && AllTracked(s.repo) && CacheAgrees(s)
  }

  /**
    Links are added only under codes no live link has, and an update of a link that is not Active
    sets an expiry that has passed.
   */
  predicate AgreementGuard(cfg: Config, s: Sys, e: Event) {
    match e
    case Create(length, _, _, _) => 1 <= length <= cfg.max ==> !LiveCode(s.repo, Oldest(s.pools, length))
    case Add(code, _, _, _) => !LiveCode(s.repo, code)
    case Update(code, _, _, expire) =>
      Found(s.repo, code).Some? ==> Found(s.repo, code).value.status == Active || expire < s.now
    case _ => true
  }

  lemma {:induction false} AllIsEach(m: Store)
    ensures AllTracked(m) <==> forall L :: Tracked(m, L)
  {
    if forall L :: Tracked(m, L) {
      forall id | id in m.links ensures RowTracked(m, id) {
        assert Tracked(m, m.links[id].length);
      }
    }
  }

  lemma {:induction false} InsertedAllTrackedIff(m: Store, row: ShortLink)
    requires WellFormed(m) && row.length == |row.code| && Live(row) && AllTracked(m)
    ensures AllTracked(Inserted(m, row)) <==> !LiveCode(m, row.code)
  {
    AllIsEach(m);
    AllIsEach(Inserted(m, row));
    InsertedTrackedIff(m, row, row.length);
    forall L | L != row.length ensures Tracked(Inserted(m, row), L) {
      InsertedTrackedIff(m, row, L);
    }
  }

  lemma {:induction false} AddAgreesIff(s: Sys, code: string, title: string, link: string, expire: int)
    requires Consistent(s)
    ensures Consistent(AddLink(s, code, title, link, expire)) <==> !LiveCode(s.repo, code)
  {
    var t, row := AddLink(s, code, title, link, expire), NewRow(code, title, link, expire);
    InsertedRows(s.repo, row);
    InsertedAllTrackedIff(s.repo, row);
    forall c: string ensures CachedItem(t, c) == ActiveItem(t, c) {
      assert CachedItem(s, c) == ActiveItem(s, c);
    }
  }

  lemma {:induction false} UpdateAgreesIff(s: Sys, code: string, title: string, link: string, expire: int)
    requires Consistent(s) && Found(s.repo, code).Some?
    ensures Consistent(UpdateLink(s, code, title, link, expire))
      <==> Found(s.repo, code).value.status == Active || expire < s.now
  {
    var t := UpdateLink(s, code, title, link, expire);
    UpdatedRow(s.repo, code, title, link, expire);
    var fine := Found(s.repo, code).value.status == Active || expire < s.now;
    assert CachedItem(t, code) == ActiveItem(t, code) <==> fine;
    forall c: string | c != code ensures CachedItem(t, c) == ActiveItem(t, c) {
      assert CachedItem(s, c) == ActiveItem(s, c);
    }
    assert AllTracked(t.repo);
  }

  lemma {:induction false} RemoveAgrees(s: Sys, code: string)
    requires Consistent(s)
    ensures Consistent(RemoveLink(s, code))
  {
    var t := RemoveLink(s, code);
    AllIsEach(s.repo);
    AllIsEach(t.repo);
    forall L ensures Tracked(t.repo, L) {
      DeletedRows(s.repo, code, L);
    }
    DeletedRows(s.repo, code, 0);
    forall c: string ensures CachedItem(t, c) == ActiveItem(t, c) {
      assert CachedItem(s, c) == ActiveItem(s, c);
    }
  }

  /** Both sweeps mark a live row; its code answers nothing before and after. */
  lemma {:induction false} MarkAgrees(s: Sys, t: Sys, id: int, status: Status)
    requires Consistent(s) && id in s.repo.links && Live(s.repo.links[id]) && s.repo.links[id].expire < s.now
    requires status != Active && t.now == s.now
    requires t.repo == Replaced(s.repo, s.repo.links[id].(status := status))
    requires t.cache == s.cache || t.cache == Dropped(s.cache, s.repo.links[id].length, s.repo.links[id].code)
    ensures Consistent(t)
  {
    var row := s.repo.links[id];
    assert RowTracked(s.repo, id);
    RewrittenRow(s.repo, row.(status := status));
    assert AllTracked(t.repo);
    forall c: string ensures CachedItem(t, c) == ActiveItem(t, c) {
      assert CachedItem(s, c) == ActiveItem(s, c);
    }
  }

  lemma {:induction false} SameRowsAgree(s: Sys, t: Sys)
    requires Consistent(s) && t.cache == s.cache && t.now == s.now
    requires t.repo == s.repo.(startIndex := t.repo.startIndex)
    ensures Consistent(t)
  {
    forall c: string ensures CachedItem(t, c) == ActiveItem(t, c) {
      assert CachedItem(s, c) == ActiveItem(s, c);
    }
    forall id | id in t.repo.links ensures RowTracked(t.repo, id) {
      assert RowTracked(s.repo, id);
    }
  }

  lemma {:induction false} LookupAgrees(s: Sys, code: string)
    requires Consistent(s)
    ensures Consistent(s.(cache := LookedUp(s.cache, |code|, code, s.now)))
  {
    var t := s.(cache := LookedUp(s.cache, |code|, code, s.now));
    forall c: string ensures CachedItem(t, c) == ActiveItem(t, c) {
      assert CachedItem(s, c) == ActiveItem(s, c);
    }
  }

  lemma {:induction false} TickAgrees(s: Sys, now: int)
    requires Consistent(s) && now >= s.now
    ensures Consistent(s.(now := now))
  {
    var t := s.(now := now);
    forall c: string ensures CachedItem(t, c) == ActiveItem(t, c) {
      assert CachedItem(s, c) == ActiveItem(s, c);
      StaleStaysStale(s, now, c);
    }
  }

  lemma {:induction false} StaleStaysStale(s: Sys, now: int, c: string)
    requires now >= s.now && CachedItem(s, c) == ActiveItem(s, c)
    ensures CachedItem(s.(now := now), c) == ActiveItem(s.(now := now), c)
  {
  }

  /** In an agreeing state a step keeps index and cache in agreement exactly when its guard holds. */
  lemma {:induction false} StepKeepsAgreementIff(cfg: Config, s: Sys, e: Event)
    requires Consistent(s)
    ensures Consistent(Apply(cfg, s, e)) <==> AgreementGuard(cfg, s, e)
  {
    match e
    case Create(length, title, link, expire) =>
      if 1 <= length <= cfg.max {
        var pulled := s.(pools := Pulled(s.pools, length));
        SameRowsAgree(s, pulled);
        AddAgreesIff(pulled, Oldest(s.pools, length), title, link, expire);
      }
    case Add(code, title, link, expire) => AddAgreesIff(s, code, title, link, expire);
    case Update(code, title, link, expire) =>
      if Found(s.repo, code).Some? { UpdateAgreesIff(s, code, title, link, expire); }
    case Remove(code) => RemoveAgrees(s, code);
    case Generate(length) => SameRowsAgree(s, GenerateBatch(cfg, s, length));
    case ExpireOne(id) => if MayExpire(s, id) { MarkAgrees(s, ExpireLink(s, id), id, Expired); }
    case RecycleOne(id) => if MayRecycle(s, id) { MarkAgrees(s, RecycleLink(s, id), id, Recycled); }
    case Rebuild(length) => SameRowsAgree(s, RebuildPool(cfg, s, length));
    case Lookup(code) => LookupAgrees(s, code);
    case Tick(now) => if now >= s.now { TickAgrees(s, now); }
  }

  lemma {:induction false} AgreementThroughout(cfg: Config, now: int, es: seq<Event>)
    requires Along(cfg, Empty(now), es, (s, e) => AgreementGuard(cfg, s, e))
    ensures Consistent(Run(cfg, Empty(now), es))
  {
    if es == [] {
      var s := Empty(now);
      forall c: string ensures CachedItem(s, c) == ActiveItem(s, c) {}
    } else {
      AgreementThroughout(cfg, now, es[..|es| - 1]);
      StepKeepsAgreementIff(cfg, Run(cfg, Empty(now), es[..|es| - 1]), es[|es| - 1]);
    }
  }

  // ---- the same in terms of rows ----

  predicate Serves(s: Sys, id: int, c: string, url: string) {
    && id in s.repo.links && s.repo.links[id].status == Active && s.repo.links[id].code == c
    && s.repo.links[id].link == url && s.repo.links[id].expire >= s.now
  }

  /** A cache lookup hits with a URL exactly when an Active, unexpired link has that code and URL. */
  lemma {:induction false} CacheRefinesRepository(s: Sys, c: string, url: string)
    requires Consistent(s)
    ensures (CachedItem(s, c).Some? && CachedItem(s, c).value.link == url) <==> exists id :: Serves(s, id, c, url)
  {
    assert CachedItem(s, c) == ActiveItem(s, c);
    if ActiveItem(s, c).Some? && ActiveItem(s, c).value.link == url {
      assert Serves(s, s.repo.codeToID[c], c, url);
    }
    forall id | Serves(s, id, c, url) ensures ActiveItem(s, c).Some? && ActiveItem(s, c).value.link == url {
      assert RowTracked(s.repo, id);
    }
  }

  /** Where the index has a code, it leads to the newest row with it; where not, no live row has it. */
  lemma {:induction false} IndexIsNewest(s: Sys, c: string, id: int)
    requires Consistent(s) && id in s.repo.links && s.repo.links[id].code == c
    ensures c in s.repo.codeToID ==> id <= s.repo.codeToID[c]
    ensures c !in s.repo.codeToID ==> s.repo.links[id].status == Recycled
  {
    assert RowTracked(s.repo, id);
  }

  // ---- where the guards come from, and what happens without them ----

  /**
    The check the management endpoint makes before adding a manual code: refuse unless the lookup
    finds nothing or a Recycled link. One backend reports "nothing" as an error, which also refuses.
   */
  predicate EndpointAdmits(s: Sys, code: string, missingIsError: bool) {
    match Found(s.repo, code)
    case Some(row) => row.status == Recycled
    case None => !missingIsError
  }

  /** The endpoint's check is the guard itself; where a missing link is an error, no unused code passes. */
  lemma {:induction false} EndpointCheckIsTheGuard(cfg: Config, s: Sys, code: string, title: string, link: string,
          expire: int)
    requires Consistent(s)
    ensures EndpointAdmits(s, code, false) <==> AgreementGuard(cfg, s, Add(code, title, link, expire))
    ensures EndpointAdmits(s, code, true) ==>
      exists id :: id in s.repo.links && s.repo.links[id].code == code && s.repo.links[id].status == Recycled
  {
    if EndpointAdmits(s, code, true) {
      var id := s.repo.codeToID[code];
      assert id in s.repo.links && s.repo.links[id].code == code && s.repo.links[id].status == Recycled;
    }
  }

  /**
    Without the guard agreement is lost: add a code that an Active link already has, and the sweep
    of the first link takes the index and the cache entry away from the second, still Active one.
   */
  lemma {:induction false} DuplicateAddMisleads(s: Sys, code: string, title: string, link: string, expire: int,
          later: int)
    requires Consistent(s) && Found(s.repo, code).Some? && Found(s.repo, code).value.status == Active
    requires Found(s.repo, code).value.expire < later <= expire
    ensures var first := Found(s.repo, code).value.id;
      var t := ExpireLink(AddLink(s, code, title, link, expire).(now := later), first);
      && Serves(t, s.repo.nextID, code, link)
      && Found(t.repo, code).Some? && Found(t.repo, code).value.id == first && CachedItem(t, code) == None
  {
    var first := Found(s.repo, code).value;
    assert first.code == code && first.id == s.repo.codeToID[code] && first.length == |code|;
  }
}
