/** Agreement of cache and rows where Add and Update write the one before the other. */
module HalfWrites {
  import opened Collections
  import opened Links
  import opened MemoryPool
  import opened MemoryCache
  import opened Rows
  import opened Lifecycle
  import opened Agreement
  import opened Redirect

  ghost function Lengths(m: Store): set<int> {
    set id | id in m.links :: m.links[id].length
  }

  /** The state with a cache that says exactly what the rows say. */
  ghost function Matching(s: Sys): Sys {
    s.(cache := map length | length in Lengths(s.repo) ::
      map c | c in s.repo.codeToID.Keys && |c| == length && ActiveItem(s, c).Some? :: ActiveItem(s, c).value)
  }

  lemma {:induction false} MatchingAgrees(s: Sys)
    requires Tracks(s)
    ensures Consistent(Matching(s))
  {
    var t := Matching(s);
    forall c: string ensures CachedItem(t, c) == ActiveItem(t, c) {
      assert ActiveItem(t, c) == ActiveItem(s, c);
      if c in s.repo.codeToID {
        var id := s.repo.codeToID[c];
        assert id in s.repo.links && s.repo.links[id].code == c && s.repo.links[id].length == |c|;
        assert |c| in Lengths(s.repo);
      }
    }
  }

  lemma {:induction false} SameRepo(cfg: Config, s: Sys, t: Sys, e: Event)
    requires t == s.(cache := t.cache)
    ensures Apply(cfg, s, e).repo == Apply(cfg, t, e).repo && Apply(cfg, s, e).now == Apply(cfg, t, e).now
  {
  }

  lemma {:induction false} CacheFollows(a: Cache, b: Cache, now: int, now': int, c: string, code: string,
          item: CacheItem)
    requires Answer(a, |c|, c, now) == Answer(b, |c|, c, now) && now <= now'
    ensures Answer(a, |c|, c, now') == Answer(b, |c|, c, now')
    ensures Answer(Put(a, |code|, code, item), |c|, c, now) == Answer(Put(b, |code|, code, item), |c|, c, now)
    ensures Answer(LookedUp(a, |code|, code, now), |c|, c, now) == Answer(LookedUp(b, |code|, code, now), |c|, c, now)
  {
  }

  lemma {:induction false} DropFollows(a: Cache, b: Cache, now: int, c: string, length: int, code: string)
    requires Answer(a, |c|, c, now) == Answer(b, |c|, c, now)
    ensures Answer(Dropped(a, length, code), |c|, c, now) == Answer(Dropped(b, length, code), |c|, c, now)
  {
  }

  /** What the cache answers after a step depends on the cache only through what it answered before. */
  lemma {:induction false} AnswersFollow(cfg: Config, s: Sys, t: Sys, e: Event, c: string)
    requires t == s.(cache := t.cache) && CachedItem(s, c) == CachedItem(t, c)
    ensures CachedItem(Apply(cfg, s, e), c) == CachedItem(Apply(cfg, t, e), c)
  {
    match e
    case Create(length, _, link, expire) =>
      CacheFollows(s.cache, t.cache, s.now, s.now, c, Oldest(s.pools, length), CacheItem(link, expire));
    case Add(code, _, link, expire) => CacheFollows(s.cache, t.cache, s.now, s.now, c, code, CacheItem(link, expire));
    case Update(code, _, link, expire) =>
      CacheFollows(s.cache, t.cache, s.now, s.now, c, code, CacheItem(link, expire));
    case Remove(code) => DropFollows(s.cache, t.cache, s.now, c, |code|, code);
    case ExpireOne(id) =>
      if id in s.repo.links { DropFollows(s.cache, t.cache, s.now, c, s.repo.links[id].length, s.repo.links[id].code); }
    case Lookup(code) => CacheFollows(s.cache, t.cache, s.now, s.now, c, code, CacheItem("", 0));
    case Tick(now) => if now >= s.now { CacheFollows(s.cache, t.cache, s.now, now, c, "", CacheItem("", 0)); }
    case _ =>
  }

  lemma {:induction false} SameActive(s: Sys, t: Sys, c: string)
    requires s.repo == t.repo && s.now == t.now
    ensures ActiveItem(s, c) == ActiveItem(t, c)
  {
  }

  lemma {:induction false} StepTracks(cfg: Config, s: Sys, e: Event)
    requires Tracks(s) && AgreementGuard(cfg, s, e)
    ensures Tracks(Apply(cfg, s, e)) && Consistent(Apply(cfg, Matching(s), e))
    ensures Apply(cfg, s, e).repo == Apply(cfg, Matching(s), e).repo
      && Apply(cfg, s, e).now == Apply(cfg, Matching(s), e).now
  {
    MatchingAgrees(s);
    SameRepo(cfg, s, Matching(s), e);
    StepKeepsAgreementIff(cfg, Matching(s), e);
  }

  lemma {:induction false} StepAgreesAt(cfg: Config, s: Sys, e: Event, c: string)
    requires Tracks(s) && AgreementGuard(cfg, s, e) && AgreesAt(s, c)
    ensures AgreesAt(Apply(cfg, s, e), c)
  {
    var t := Matching(s);
    MatchingAgrees(s);
    StepTracks(cfg, s, e);
    SameActive(s, t, c);
    assert CachedItem(t, c) == ActiveItem(t, c);
    AnswersFollow(cfg, s, t, e, c);
    assert CachedItem(Apply(cfg, t, e), c) == ActiveItem(Apply(cfg, t, e), c);
    SameActive(Apply(cfg, s, e), Apply(cfg, t, e), c);
  }

  predicate StillAnswers(before: Option<CacheItem>, after: Option<CacheItem>, now: int) {
    after == if before.Some? && before.value.expireTime < now then None else before
  }

  lemma {:induction false} ReplacedElsewhere(m: Store, row: ShortLink, c: string)
    requires WellFormed(m) && row.id in m.links && m.links[row.id].code == row.code && row.code != c
    ensures Found(Replaced(m, row), c) == Found(m, c)
  {
    if c in m.codeToID { assert m.links[m.codeToID[c]].code == c; }
  }

  lemma {:induction false} InsertedElsewhere(m: Store, row: ShortLink, c: string)
    requires WellFormed(m) && row.code != c
    ensures Found(Inserted(m, row), c) == Found(m, c)
  {
    if c in m.codeToID { assert m.codeToID[c] < m.nextID; }
  }

  lemma {:induction false} DeletedElsewhere(m: Store, code: string, c: string)
    requires WellFormed(m) && code != c
    ensures Found(Deleted(m, code), c) == Found(m, c)
  {
    if c in m.codeToID { assert m.links[m.codeToID[c]].code == c; }
    if code in m.codeToID { assert m.links[m.codeToID[code]].code == code; }
  }

  lemma {:induction false} FoundUntouched(cfg: Config, s: Sys, e: Event, c: string)
    requires WellFormed(s.repo) && !Touches(cfg, s, e, c)
    ensures Found(Apply(cfg, s, e).repo, c) == Found(s.repo, c)
  {
    var m := s.repo;
    match e
    case Create(length, title, link, expire) =>
      if 1 <= length <= cfg.max { InsertedElsewhere(m, NewRow(Oldest(s.pools, length), title, link, expire), c); }
    case Add(code, title, link, expire) => InsertedElsewhere(m, NewRow(code, title, link, expire), c);
    case Update(code, title, link, expire) =>
      if Found(m, code).Some? {
        assert m.links[m.codeToID[code]].id == m.codeToID[code] && m.links[m.codeToID[code]].code == code;
        ReplacedElsewhere(m, Found(m, code).value.(link := link, title := title, expire := expire), c);
      }
    case ExpireOne(id) =>
      if id in m.links {
        assert m.links[id].id == id;
        ReplacedElsewhere(m, m.links[id].(status := Expired), c);
      }
    case RecycleOne(id) =>
      if id in m.links {
        assert m.links[id].id == id;
        ReplacedElsewhere(m, m.links[id].(status := Recycled), c);
      }
    case Remove(code) => DeletedElsewhere(m, code, c);
    case _ =>
  }

  lemma {:induction false} AnswersUntouched(cfg: Config, s: Sys, e: Event, c: string)
    requires WellFormed(s.repo) && !Touches(cfg, s, e, c)
    ensures StillAnswers(CachedItem(s, c), CachedItem(Apply(cfg, s, e), c), Apply(cfg, s, e).now)
    ensures Apply(cfg, s, e).now >= s.now
  {
  }

  /** A step that does not touch a code leaves its row and its cache entry, until that expires. */
  lemma {:induction false} Untouched(cfg: Config, s: Sys, e: Event, c: string)
    requires WellFormed(s.repo) && !Touches(cfg, s, e, c)
    ensures Found(Apply(cfg, s, e).repo, c) == Found(s.repo, c)
    ensures StillAnswers(CachedItem(s, c), CachedItem(Apply(cfg, s, e), c), Apply(cfg, s, e).now)
    ensures Apply(cfg, s, e).now >= s.now
  {
    FoundUntouched(cfg, s, e, c);
    AnswersUntouched(cfg, s, e, c);
  }

  lemma {:induction false} UntouchedIsSpared(cfg: Config, s: Sys, e: Event, x: HalfWrite)
    requires WellFormed(s.repo) && Ahead(s, x) && !Touches(cfg, s, e, x.code)
    ensures Ahead(Apply(cfg, s, e), x) && Spares(cfg, s, e, x)
  {
    Untouched(cfg, s, e, x.code);
  }

  lemma {:induction false} NewLinkSpares(s: Sys, t: Sys, code: string, title: string,
          link: string, expire: int, x: HalfWrite)
    requires WellFormed(s.repo) && Ahead(s, x) && x.code == code
    requires t == AddLink(s.(pools := t.pools), code, title, link, expire)
    ensures Ahead(t, x) <==> x.target.None? && SameAnswer(x, link, expire, s.now)
  {
    assert Found(t.repo, code).value.id == s.repo.nextID;
    if x.target.Some? { assert x.target.value == s.repo.codeToID[code] < s.repo.nextID; }
  }

  lemma {:induction false} UpdateSpares(s: Sys, code: string, title: string, link: string, expire: int, x: HalfWrite)
    requires WellFormed(s.repo) && Ahead(s, x) && x.code == code && Found(s.repo, code).Some?
    ensures Ahead(UpdateLink(s, code, title, link, expire), x) <==> SameAnswer(x, link, expire, s.now)
  {
    var id := s.repo.codeToID[code];
    assert s.repo.links[id].id == id && s.repo.links[id].code == code;
  }

  lemma {:induction false} SweepSpares(cfg: Config, s: Sys, e: Event, x: HalfWrite)
    requires Tracks(s) && Ahead(s, x) && IsSweepOf(s, e, x.code)
    ensures Ahead(Apply(cfg, s, e), x) <==> Spares(cfg, s, e, x)
  {
    var m := s.repo;
    if (e.ExpireOne? && MayExpire(s, e.id)) || (e.RecycleOne? && MayRecycle(s, e.id)) {
      assert RowTracked(m, e.id) && m.links[e.id].id == e.id && m.links[e.id].length == |x.code|;
      assert m.codeToID[x.code] == e.id;
    }
  }

  predicate IsSweepOf(s: Sys, e: Event, code: string) {
    (e.ExpireOne? || e.RecycleOne?) && e.id in s.repo.links && s.repo.links[e.id].code == code
  }

  /** A step leaves the cache ahead by a half-done write exactly when it spares that write. */
  lemma {:induction false} AheadIff(cfg: Config, s: Sys, e: Event, x: HalfWrite)
    requires Tracks(s) && Ahead(s, x)
    ensures Ahead(Apply(cfg, s, e), x) <==> Spares(cfg, s, e, x)
  {
    if !Touches(cfg, s, e, x.code) {
      UntouchedIsSpared(cfg, s, e, x);
    } else {
      match e
      case Create(length, title, link, expire) => NewLinkSpares(s, Apply(cfg, s, e), x.code, title, link, expire, x);
      case Add(code, title, link, expire) => NewLinkSpares(s, Apply(cfg, s, e), code, title, link, expire, x);
      case Update(code, title, link, expire) =>
        if Found(s.repo, code).Some? { UpdateSpares(s, code, title, link, expire, x); }
      case Remove(code) =>
      case _ => SweepSpares(cfg, s, e, x);
    }
  }

  lemma {:induction false} AllAheadIff(cfg: Config, s: Sys, writes: Writes, e: Event)
    requires AgreesBut(s, writes)
    ensures (forall k :: k in writes ==> Ahead(Apply(cfg, s, e), writes[k]))
      <==> (forall k :: k in writes.Keys ==> Spares(cfg, s, e, writes[k]))
  {
    forall k | k in writes ensures Ahead(Apply(cfg, s, e), writes[k]) <==> Spares(cfg, s, e, writes[k]) {
      AheadIff(cfg, s, e, writes[k]);
    }
  }

  lemma {:induction false} UntouchedAgrees(cfg: Config, s: Sys, e: Event, c: string)
    requires WellFormed(s.repo) && !Touches(cfg, s, e, c) && AgreesAt(s, c)
    ensures AgreesAt(Apply(cfg, s, e), c)
  {
    Untouched(cfg, s, e, c);
  }

  /** An update keeps the index in order whatever it finds. */
  lemma {:induction false} UpdateTracks(s: Sys, code: string, title: string, link: string, expire: int)
    requires Tracks(s)
    ensures Tracks(UpdateLink(s, code, title, link, expire))
  {
    if Found(s.repo, code).Some? { UpdatedRow(s.repo, code, title, link, expire); }
  }

  lemma {:induction false} GuardKeepsOthers(cfg: Config, s: Sys, writes: Writes, e: Event, c: string)
    requires AgreesBut(s, writes) && SparingGuard(cfg, s, writes, e) && !BeingWritten(writes, c)
    ensures AgreesAt(Apply(cfg, s, e), c)
  {
    assert AgreesAt(s, c);
    if AgreementGuard(cfg, s, e) { StepAgreesAt(cfg, s, e, c); } else { UntouchedAgrees(cfg, s, e, c); }
  }

  lemma {:induction false} NewLinkTracksIff(s: Sys, t: Sys, code: string, title: string, link: string, expire: int)
    requires Tracks(s) && t.repo == Inserted(s.repo, NewRow(code, title, link, expire))
    ensures Tracks(t) <==> !LiveCode(s.repo, code)
  {
    InsertedRows(s.repo, NewRow(code, title, link, expire));
    InsertedAllTrackedIff(s.repo, NewRow(code, title, link, expire));
  }

  /** Of an update that is not of a link being written, agreement at its code asks what its own guard asks. */
  lemma {:induction false} GuardIsNeeded(cfg: Config, s: Sys, writes: Writes, e: Event)
    requires AgreesBut(s, writes) && AgreesBut(Apply(cfg, s, e), writes)
    ensures (e.Update? && BeingWritten(writes, e.code)) || AgreementGuard(cfg, s, e)
  {
    match e
    case Create(length, title, link, expire) =>
      if 1 <= length <= cfg.max { NewLinkTracksIff(s, Apply(cfg, s, e), Oldest(s.pools, length), title, link, expire); }
    case Add(code, title, link, expire) => NewLinkTracksIff(s, Apply(cfg, s, e), code, title, link, expire);
    case Update(code, title, link, expire) =>
      if !BeingWritten(writes, code) && Found(s.repo, code).Some? {
        assert AgreesAt(Apply(cfg, s, e), code) && s.repo.links[s.repo.codeToID[code]].id == s.repo.codeToID[code];
      }
    case _ =>
  }

  /** A step keeps cache and rows in agreement, but for the links being written, exactly when its guard holds. */
  lemma {:induction false} StepAgreesButIff(cfg: Config, s: Sys, writes: Writes, e: Event)
    requires AgreesBut(s, writes)
    ensures AgreesBut(Apply(cfg, s, e), writes) <==> SparingGuard(cfg, s, writes, e)
  {
    AllAheadIff(cfg, s, writes, e);
    if SparingGuard(cfg, s, writes, e) {
      if AgreementGuard(cfg, s, e) {
        StepTracks(cfg, s, e);
      } else {
        UpdateTracks(s, e.code, e.title, e.link, e.expire);
      }
      forall c: string | !BeingWritten(writes, c) ensures AgreesAt(Apply(cfg, s, e), c) {
        GuardKeepsOthers(cfg, s, writes, e, c);
      }
    } else if AgreesBut(Apply(cfg, s, e), writes) {
      GuardIsNeeded(cfg, s, writes, e);
    }
  }

  /** Only the pools differ. */
  lemma {:induction false} PoolsAgreeBut(s: Sys, writes: Writes, t: Sys)
    requires AgreesBut(s, writes) && t == s.(pools := t.pools)
    ensures AgreesBut(t, writes)
  {
    forall c: string | !BeingWritten(writes, c) ensures AgreesAt(t, c) {
      assert AgreesAt(s, c);
    }
    forall k | k in writes ensures Ahead(t, writes[k]) {
      assert Ahead(s, writes[k]);
    }
  }

  lemma {:induction false} StillWritten(writes: Writes, k: int, c: string)
    requires k in writes && c != writes[k].code
    ensures BeingWritten(writes - {k}, c) <==> BeingWritten(writes, c)
  {
    if BeingWritten(writes, c) {
      var j :| j in writes.Keys && writes[j].code == c;
      assert j in (writes - {k}).Keys;
    }
  }

  lemma {:induction false} BeginKeeps(s: Sys, writes: Writes, k: int, x: HalfWrite)
    requires AgreesBut(s, writes) && k !in writes && x.started == s.now && MayBegin(s, writes, x)
    ensures AgreesBut(CachePut(s, x.code, x.link, x.expire), writes[k := x])
  {
    var t, writes' := CachePut(s, x.code, x.link, x.expire), writes[k := x];
    assert k in writes'.Keys && writes'[k] == x;
    forall c: string | !BeingWritten(writes', c) ensures AgreesAt(t, c) {
      StillWritten(writes', k, c);
      assert writes' - {k} == writes && AgreesAt(s, c);
    }
    forall j | j in writes' ensures Ahead(t, writes'[j]) {
      if j != k { assert j in writes.Keys && Ahead(s, writes[j]) && writes[j].code != x.code; }
    }
  }

  /** The cache half puts the cache ahead at its code and nowhere else. */
  lemma {:induction false} BeginAgreesButIff(s: Sys, writes: Writes, k: int, x: HalfWrite)
    requires AgreesBut(s, writes) && k !in writes && x.started == s.now
    ensures AgreesBut(CachePut(s, x.code, x.link, x.expire), writes[k := x]) <==> MayBegin(s, writes, x)
  {
    var t, writes' := CachePut(s, x.code, x.link, x.expire), writes[k := x];
    if MayBegin(s, writes, x) {
      BeginKeeps(s, writes, k, x);
    } else if AgreesBut(t, writes') {
      assert writes'[k] == x && Ahead(t, writes'[k]);
      forall j | j in writes.Keys ensures writes[j].code != x.code {
        assert j in writes' && writes'[j] == writes[j];
      }
    }
  }

  /** Writing a row under a code moves what is found under that code only. */
  lemma {:induction false} FoundElsewhere(m: Store, x: HalfWrite, c: string)
    requires WellFormed(m) && c != x.code
    requires x.target.Some? ==> x.target.value in m.links && m.links[x.target.value].code == x.code
    ensures Found(RowWritten(m, x), c) == Found(m, c)
  {
    if c in m.codeToID { assert m.links[m.codeToID[c]].code == c && m.codeToID[c] < m.nextID; }
    if x.target.Some? { assert m.links[x.target.value].id == x.target.value; }
  }

  lemma {:induction false} FoundAt(m: Store, x: HalfWrite)
    requires WellFormed(m)
    requires x.target.Some? ==> Found(m, x.code).Some? && Found(m, x.code).value.id == x.target.value
    ensures Found(RowWritten(m, x), x.code) ==
      match x.target
      case None => Some(NewRow(x.code, x.title, x.link, x.expire).(id := m.nextID))
      case Some(id) => Some(Found(m, x.code).value.(link := x.link, title := x.title, expire := x.expire))
    ensures x.target.Some? ==> x.target.value in m.links && m.links[x.target.value].code == x.code
  {
    if x.target.Some? {
      var id := m.codeToID[x.code];
      assert m.links[id].id == id && m.links[id].code == x.code && x.target.value == id;
    }
  }

  /**
    The row half of an Add keeps the index in order exactly under a code no live link has; that of an
    Update always.
   */
  lemma {:induction false} FinishTracksIff(s: Sys, x: HalfWrite)
    requires Tracks(s) && Ahead(s, x)
    ensures Tracks(s.(repo := RowWritten(s.repo, x))) <==> (x.target.None? ==> !LiveCode(s.repo, x.code))
  {
    match x.target
    case None => NewLinkTracksIff(s, s.(repo := RowWritten(s.repo, x)), x.code, x.title, x.link, x.expire);
    case Some(id) =>
      UpdatedRow(s.repo, x.code, x.title, x.link, x.expire);
      assert s.repo.links[id].id == id;
  }

  lemma {:induction false} FinishAgreesBut(s: Sys, writes: Writes, k: int)
    requires AgreesBut(s, writes) && k in writes
    requires writes[k].target.None? ==> !LiveCode(s.repo, writes[k].code)
    ensures AgreesBut(s.(repo := RowWritten(s.repo, writes[k])), writes - {k})
  {
    var x, t := writes[k], s.(repo := RowWritten(s.repo, writes[k]));
    assert Ahead(s, x);
    FinishTracksIff(s, x);
    FoundAt(s.repo, x);
    forall c: string | !BeingWritten(writes - {k}, c) ensures AgreesAt(t, c) {
      if c == x.code {
      } else {
        StillWritten(writes, k, c);
        FoundElsewhere(s.repo, x, c);
        assert AgreesAt(s, c);
      }
    }
    forall j | j in writes - {k} ensures Ahead(t, (writes - {k})[j]) {
      assert Ahead(s, writes[j]) && writes[j].code != x.code;
      FoundElsewhere(s.repo, x, writes[j].code);
    }
  }
}
