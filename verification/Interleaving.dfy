/** What holds of index, cache and codes while pages of the sweeps are in flight, and what breaks them. */
module Interleaving {
  import opened Collections
  import opened Generator
  import opened Links
  import opened MemoryPool
  import opened MemoryCache
  import opened Rows
  import opened Lifecycle
  import opened Ownership
  import opened Agreement
  import opened Flight
  import opened FlightSafety

  predicate GuardAny(cfg: Config, s: Sys, e: Option<Event>) {
    e.Some? ==> AgreementGuard(cfg, s, e.value)
  }

  lemma {:induction false} RebuildAgrees(cfg: Config, f: Fine, length: int)
    requires Consistent(View(f))
    ensures Consistent(View(FineStep(cfg, f, Do(Rebuild(length)))))
  {
    SameRowsAgree(View(f), View(FineStep(cfg, f, Do(Rebuild(length)))));
  }

  /**
    At the grain of the source a step keeps rows in flight intact and index and cache in agreement
    exactly when it disturbs no row in flight and the guard of the service step it stands for holds.
   */
  lemma {:induction false} FineStepAgreesIff(cfg: Config, f: Fine, a: Act)
    requires Intact(f) && Consistent(View(f))
    ensures Intact(FineStep(cfg, f, a)) && Consistent(View(FineStep(cfg, f, a)))
      <==> FlightGuard(cfg, f, a) && GuardAny(cfg, View(f), Coarse(f.tasks, a))
  {
    StepKeepsIntactIff(cfg, f, a);
    if a.Do? && a.e.Rebuild? {
      RebuildAgrees(cfg, f, a.e.length);
    } else {
      StepRefines(cfg, f, a);
      if Coarse(f.tasks, a).Some? { StepKeepsAgreementIff(cfg, View(f), Coarse(f.tasks, a).value); }
    }
  }

  // ---- rebuilding while rows are in flight ----

  /** The code of a row that was returned to the pool and is not yet marked. */
  lemma {:induction false} HalfReturnedRow(f: Fine, L: int, codes: seq<string>) returns (c: string)
    requires Intact(f) && HalfReturned(f.tasks, f.sys.repo.links, L, codes)
    ensures c in codes && |c| == L && LiveCode(f.sys.repo, c) && !LiveCode(View(f).repo, c)
  {
    var k :| k in f.tasks.Keys && f.tasks[k].phase == Half && f.tasks[k].mark == Recycled && f.tasks[k].row.length == L
             && f.tasks[k].row.id in f.sys.repo.links && f.tasks[k].row.code in codes;
    c := f.tasks[k].row.code;
    HalfRow(f, k);
    assert TaskIntact(f.sys, f.tasks[k]) && Advancing(f.tasks, f.tasks[k].row.id);
  }

  lemma {:induction false} TrackedInFlight(f: Fine, L: int)
    requires Intact(f) && Tracked(View(f).repo, L)
    ensures Tracked(f.sys.repo, L)
  {
    var m := f.sys.repo;
    forall id | id in m.links && m.links[id].length == L ensures RowTracked(m, id) {
      assert RowTracked(View(f).repo, id);
      if Advancing(f.tasks, id) {
        var k :| k in f.tasks.Keys && f.tasks[k].phase == Half && f.tasks[k].row.id == id;
        assert TaskIntact(f.sys, f.tasks[k]);
      }
    }
  }

  /** Used codes are live in the rows: those live in the view, and the half-returned ones. */
  lemma {:induction false} UsedInFlight(f: Fine, L: int, c: string)
    requires Intact(f) && Tracked(View(f).repo, L) && |c| == L
    ensures LiveCode(f.sys.repo, c) <==> LiveCode(View(f).repo, c) || HalfReturned(f.tasks, f.sys.repo.links, L, [c])
  {
    if HalfReturned(f.tasks, f.sys.repo.links, L, [c]) {
      var d := HalfReturnedRow(f, L, [c]);
    }
    if LiveCode(f.sys.repo, c) && !LiveCode(View(f).repo, c) {
      var id := f.sys.repo.codeToID[c];
      assert Advancing(f.tasks, id);
      var k :| k in f.tasks.Keys && f.tasks[k].phase == Half && f.tasks[k].row.id == id;
      HalfRow(f, k);
      assert TaskIntact(f.sys, f.tasks[k]) && f.sys.repo.links[id].code == c;
      assert f.tasks[k].mark == Recycled && f.tasks[k].row.code in [c];
    }
  }

  /** A rebuild keeps the length owned exactly when it meets no half-returned row whose code was issued. */
  lemma {:induction false} RebuildInFlightIff(cfg: Config, L: int, f: Fine, removed: set<string>)
    requires ValidConfig(cfg) && Generated(cfg, L) && Intact(f) && Owned(cfg, L, View(f), removed)
    ensures Owned(cfg, L, View(FineStep(cfg, f, Do(Rebuild(L)))), {}) <==> RebuildGuard(cfg, f, Do(Rebuild(L)))
  {
    if RebuildGuard(cfg, f, Do(Rebuild(L))) {
      StepRefines(cfg, f, Do(Rebuild(L)));
      RebuildKeeps(cfg, L, View(f), L, removed);
    } else {
      var c := HalfReturnedRow(f, L, Issued(cfg, f.sys.repo, L));
      LostCode(cfg, L, f, removed, c);
    }
  }

  lemma {:induction false} LostCode(cfg: Config, L: int, f: Fine, removed: set<string>, c: string)
    requires Generated(cfg, L) && L <= cfg.max && Intact(f) && Owned(cfg, L, View(f), removed)
    requires c in Issued(cfg, f.sys.repo, L) && |c| == L && LiveCode(f.sys.repo, c) && !LiveCode(View(f).repo, c)
    ensures !Owned(cfg, L, View(FineStep(cfg, f, Do(Rebuild(L)))), {})
  {
    TrackedInFlight(f, L);
    IndexInView(cfg, L, f, removed);
    TakenOut(cfg, L, f, c);
    NowhereIsNotOwned(cfg, L, View(FineStep(cfg, f, Do(Rebuild(L)))), c);
  }

  lemma {:induction false} TakenOut(cfg: Config, L: int, f: Fine, c: string)
    requires Generated(cfg, L) && L <= cfg.max && WellFormed(f.sys.repo) && Tracked(f.sys.repo, L)
    requires 0 <= Index(f.sys.repo, L) <= Capacity(cfg.batch, cfg.steps[L]) && |c| == L && LiveCode(f.sys.repo, c)
    ensures var g := View(FineStep(cfg, f, Do(Rebuild(L))));
      g.repo == View(f).repo && c !in PoolOf(g.pools, L)
  {
    RebuildExact(cfg, L, f.sys);
  }

  lemma {:induction false} IndexInView(cfg: Config, L: int, f: Fine, removed: set<string>)
    requires Generated(cfg, L) && Owned(cfg, L, View(f), removed)
    ensures 0 <= Index(f.sys.repo, L) <= Capacity(cfg.batch, cfg.steps[L]) && Typed(f.sys)
  {
    SameTyped(View(f), f.sys);
  }

  lemma {:induction false} NowhereIsNotOwned(cfg: Config, L: int, s: Sys, c: string)
    requires Generated(cfg, L) && c in Issued(cfg, s.repo, L) && c !in PoolOf(s.pools, L) && !LiveCode(s.repo, c)
    ensures !Owned(cfg, L, s, {})
  {
    if Owned(cfg, L, s, {}) { HomeOf(cfg, L, s, {}, c); }
  }

  lemma {:induction false} RebuildElsewhereOwns(cfg: Config, L: int, f: Fine, length: int, removed: set<string>)
    requires ValidConfig(cfg) && Generated(cfg, L) && Intact(f) && Owned(cfg, L, View(f), removed) && length != L
    ensures Owned(cfg, L, View(FineStep(cfg, f, Do(Rebuild(length)))), removed)
  {
    var g := FineStep(cfg, f, Do(Rebuild(length)));
    IndexInView(cfg, L, f, removed);
    RebuildTyped(cfg, f.sys, length);
    SameTyped(g.sys, View(g));
    Unmoved(cfg, L, View(f), View(g), removed);
  }

  function RemovedAny(cfg: Config, L: int, f: Fine, a: Act, removed: set<string>): set<string> {
    match Coarse(f.tasks, a)
    case Some(e) => RemovedAfter(cfg, L, View(f), e, removed)
    case None => removed
  }

  /** What ownership of a length asks of a step: its own guard, and of a rebuild that it loses no code in flight. */
  predicate OwnershipGuard(cfg: Config, L: int, f: Fine, a: Act, removed: set<string>) {
    && (Coarse(f.tasks, a).Some? ==> Guard(cfg, L, View(f), Coarse(f.tasks, a).value, removed))
    && (a == Do(Rebuild(L)) ==> RebuildGuard(cfg, f, a))
  }

  /** The same for ownership of a length. */
  lemma {:induction false} FineStepOwnsIff(cfg: Config, L: int, f: Fine, a: Act, removed: set<string>)
    requires ValidConfig(cfg) && Generated(cfg, L) && Intact(f) && Owned(cfg, L, View(f), removed)
    ensures Intact(FineStep(cfg, f, a)) && Owned(cfg, L, View(FineStep(cfg, f, a)), RemovedAny(cfg, L, f, a, removed))
      <==> FlightGuard(cfg, f, a) && OwnershipGuard(cfg, L, f, a, removed)
  {
    StepKeepsIntactIff(cfg, f, a);
    if a == Do(Rebuild(L)) {
      RebuildInFlightIff(cfg, L, f, removed);
    } else if a.Do? && a.e.Rebuild? {
      RebuildElsewhereOwns(cfg, L, f, a.e.length, removed);
    } else {
      StepRefines(cfg, f, a);
      if Coarse(f.tasks, a).Some? { StepKeepsOwnershipIff(cfg, L, View(f), Coarse(f.tasks, a).value, removed); }
    }
  }

  /** Over every undisturbed run the cache answers what the rows say, and every hit is an Active, unexpired link. */
  lemma {:induction false} AgreementInFlight(cfg: Config, now: int, acts: seq<Act>, c: string)
    requires Undisturbed(cfg, Start(now), acts)
    requires Along(cfg, Empty(now), CoarseRun(cfg, Start(now), acts), (s, e) => AgreementGuard(cfg, s, e))
    ensures var f := FineRun(cfg, Start(now), acts);
      && Consistent(View(f)) && CachedItem(f.sys, c) == ActiveItem(View(f), c)
      && (CachedItem(f.sys, c).Some? ==> exists id :: Serves(f.sys, id, c, CachedItem(f.sys, c).value.link))
      && (Settled(f) ==> Consistent(f.sys))
  {
    var f := FineRun(cfg, Start(now), acts);
    RunRefines(cfg, now, acts);
    AgreementThroughout(cfg, now, CoarseRun(cfg, Start(now), acts));
    assert CachedItem(View(f), c) == ActiveItem(View(f), c);
    if CachedItem(f.sys, c).Some? {
      var url := CachedItem(f.sys, c).value.link;
      CacheRefinesRepository(View(f), c, url);
      var id :| Serves(View(f), id, c, url);
      ServesInFlight(f, id, c, url);
    }
    if Settled(f) { SettledView(f); }
  }

  lemma {:induction false} ServesInFlight(f: Fine, id: int, c: string, url: string)
    requires Serves(View(f), id, c, url)
    ensures Serves(f.sys, id, c, url)
  {
  }

  /** Over every undisturbed run codes are owned exclusively and conserved, a returned row counting as Recycled. */
  lemma {:induction false} OwnershipInFlight(cfg: Config, L: int, now: int, acts: seq<Act>)
    requires ValidConfig(cfg) && cfg.manual < L <= cfg.max && Usable(cfg, L)
    requires Undisturbed(cfg, Start(now), acts) && Guarded(cfg, L, Empty(now), CoarseRun(cfg, Start(now), acts))
    ensures var f := FineRun(cfg, Start(now), acts);
      && ExclusiveOwnership(L, View(f))
      && Conserved(cfg, L, View(f), RemovedBy(cfg, L, Empty(now), CoarseRun(cfg, Start(now), acts)))
      && (Settled(f) ==> ExclusiveOwnership(L, f.sys))
  {
    var f := FineRun(cfg, Start(now), acts);
    RunRefines(cfg, now, acts);
    OwnershipAndConservation(cfg, L, now, CoarseRun(cfg, Start(now), acts));
    if Settled(f) { SettledView(f); }
  }

  // ---- what a disturbed page does ----

  ghost predicate NewestRow(m: Store, id: int)
    requires id in m.links
  {
    forall k :: k in m.links && m.links[k].code == m.links[id].code ==> k <= id
  }

  /** Writing a row back keeps agreement exactly when no newer row has its code. */
  lemma {:induction false} WriteAgreesIff(s: Sys, id: int)
    requires Consistent(s) && id in s.repo.links
    ensures Consistent(s.(repo := WrittenBack(s.repo, id))) <==> NewestRow(s.repo, id)
  {
    var m, n, c := s.repo, WrittenBack(s.repo, id), s.repo.links[id].code;
    assert m.links[id].id == id && n.links == m.links && n.codeToID == m.codeToID[c := id];
    assert RowTracked(m, id);
    if NewestRow(m, id) {
      forall k | k in n.links ensures RowTracked(n, k) { assert RowTracked(m, k); }
      WriteSameAnswers(s, id);
    } else {
      var k :| k in m.links && m.links[k].code == c && k > id;
      assert !RowTracked(n, k);
    }
  }

  lemma {:induction false} WriteSameAnswers(s: Sys, id: int)
    requires Consistent(s) && id in s.repo.links && NewestRow(s.repo, id)
    ensures CacheAgrees(s.(repo := WrittenBack(s.repo, id)))
  {
    var t, c := s.(repo := WrittenBack(s.repo, id)), s.repo.links[id].code;
    assert RowTracked(s.repo, id) && s.repo.links[id].id == id;
    forall d: string ensures CachedItem(t, d) == ActiveItem(t, d) {
      assert CachedItem(s, d) == ActiveItem(s, d);
    }
  }

  /**
    Between a row's mark and its write-back, a step whose own guard holds leaves index and cache in
    agreement after the write-back exactly when it does not create or add a link under the row's code.
   */
  lemma {:induction false} MidPageAgreesIff(cfg: Config, f: Fine, t: Task, e: Event)
    requires Intact(f) && f.tasks == map[0 := t] && t.phase == Back && t.row.id in f.sys.repo.links
    requires Consistent(f.sys) && !IsSweep(e) && AgreementGuard(cfg, f.sys, e)
    ensures Consistent(FineStep(cfg, FineStep(cfg, f, Do(e)), Write(0)).sys) <==> FlightGuard(cfg, f, Do(e))
  {
    var g := FineStep(cfg, f, Do(e));
    DoThenWrite(cfg, f, t, e);
    StepKeepsAgreementIff(cfg, f.sys, e);
    StepKeepsIntactIff(cfg, f, Do(e));
    if FlightGuard(cfg, f, Do(e)) {
      WriteChangesNothing(g, 0);
    } else {
      NewerRow(cfg, f, t, e);
      WriteAgreesIff(g.sys, t.row.id);
    }
  }

  lemma {:induction false} NewerRow(cfg: Config, f: Fine, t: Task, e: Event)
    requires Intact(f) && f.tasks == map[0 := t] && t.phase == Back && t.row.id in f.sys.repo.links
    requires !FlightGuard(cfg, f, Do(e))
    ensures t.row.id in Apply(cfg, f.sys, e).repo.links && !NewestRow(Apply(cfg, f.sys, e).repo, t.row.id)
  {
    var n, m := f.sys.repo.nextID, Apply(cfg, f.sys, e).repo;
    assert TaskIntact(f.sys, t) by { assert f.tasks[0] == t; }
    assert n in m.links && m.links[n].code == t.row.code == m.links[t.row.id].code && t.row.id < n;
  }

  /** Dropping a row from the cache keeps agreement exactly when no Active, unexpired link has its code. */
  lemma {:induction false} DropAgreesIff(s: Sys, t: Task)
    requires Consistent(s) && t.mark == Expired && t.row.length == |t.row.code|
    ensures Consistent(Handled(s, t)) <==> !exists id, url :: Serves(s, id, t.row.code, url)
  {
    var n, c := Handled(s, t), t.row.code;
    assert CachedItem(n, c) == None && ActiveItem(n, c) == ActiveItem(s, c);
    forall d: string | d != c ensures CachedItem(n, d) == ActiveItem(n, d) {
      assert CachedItem(s, d) == ActiveItem(s, d);
    }
    if ActiveItem(s, c).Some? {
      CacheRefinesRepository(s, c, ActiveItem(s, c).value.link);
      assert CachedItem(s, c) == ActiveItem(s, c);
    }
    forall id, url | Serves(s, id, c, url) ensures ActiveItem(s, c).Some? {
      CacheRefinesRepository(s, c, url);
    }
  }

  /** One row through reading, handling and marking, with one step of the service where `at` says. */
  ghost function Page(cfg: Config, s: Sys, id: int, mark: Status): Fine {
    FineRun(cfg, Fine(s, map[]), [Read(0, id, mark, Threshold(mark, s.now)), Handle(0), Mark(0)])
  }

  lemma {:induction false} FineRunThree(cfg: Config, f: Fine, a: Act, b: Act, c: Act)
    ensures FineRun(cfg, f, [a, b, c]) == FineStep(cfg, FineStep(cfg, FineStep(cfg, f, a), b), c)
  {
    var three, two, one: seq<Act> := [a, b, c], [a, b], [a];
    assert three[..2] == two && two[..1] == one && one[..0] == [];
    assert FineRun(cfg, f, []) == f && FineRun(cfg, f, one) == FineStep(cfg, f, a);
    assert FineRun(cfg, f, two) == FineStep(cfg, FineStep(cfg, f, a), b);
  }

  lemma {:induction false} RecyclePage(cfg: Config, s: Sys, id: int)
    requires Consistent(s) && MayRecycle(s, id)
    ensures var f, row := Page(cfg, s, id, Recycled), s.repo.links[id];
      f == Fine(RecycleLink(s, id), map[0 := Task(row, Recycled, s.now - YEAR, Back)])
  {
    var row := s.repo.links[id];
    FineRunThree(cfg, Fine(s, map[]), Read(0, id, Recycled, s.now - YEAR), Handle(0), Mark(0));
    assert RowTracked(s.repo, id) && row.id == id;
    assert s.repo.codeToID[row.code := id] == s.repo.codeToID;
  }

  lemma {:induction false} ReturnedIsPulled(cfg: Config, s: Sys, id: int, title: string, link: string, expire: int)
    requires Consistent(s) && MayRecycle(s, id)
    requires var L := s.repo.links[id].length; 1 <= L <= cfg.max && PoolOf(s.pools, L) == []
    ensures var row, r := s.repo.links[id], RecycleLink(s, id);
      var create := Create(row.length, title, link, expire);
      && Consistent(r) && AgreementGuard(cfg, r, create) && Consistent(Apply(cfg, r, create))
      && Apply(cfg, r, create).repo == Inserted(r.repo, NewRow(row.code, title, link, expire))
      && Apply(cfg, r, create).cache == Put(r.cache, |row.code|, row.code, CacheItem(link, expire))
      && Oldest(r.pools, row.length) == row.code && r.repo.nextID == s.repo.nextID > id
      && id in r.repo.links && r.repo.links[id] == row.(status := Recycled)
  {
    var row, r := s.repo.links[id], RecycleLink(s, id);
    assert RowTracked(s.repo, id) && row.id == id && row.length == |row.code|;
    StepKeepsAgreementIff(cfg, s, RecycleOne(id));
    StepKeepsAgreementIff(cfg, r, Create(row.length, title, link, expire));
  }

  lemma {:induction false} WriteAfterCreate(r: Sys, id: int, title: string, link: string, expire: int, g: Sys)
    requires Consistent(r) && id in r.repo.links && id < r.repo.nextID && expire >= g.now
    requires var code := r.repo.links[id].code;
      && Consistent(g) && g.repo == Inserted(r.repo, NewRow(code, title, link, expire))
      && g.cache == Put(r.cache, |code|, code, CacheItem(link, expire))
    ensures var code, h := r.repo.links[id].code, g.(repo := WrittenBack(g.repo, id));
      && !Consistent(h) && Serves(h, r.repo.nextID, code, link)
      && CachedItem(h, code) == Some(CacheItem(link, expire))
      && Found(h.repo, code) == Some(r.repo.links[id])
  {
    var code, n := r.repo.links[id].code, r.repo.nextID;
    assert r.repo.links[id].id == id && g.repo.links[id] == r.repo.links[id];
    assert n in g.repo.links && g.repo.links[n].code == code && !NewestRow(g.repo, id);
    WriteAgreesIff(g, id);
  }

  lemma {:induction false} DoThenWrite(cfg: Config, f: Fine, t: Task, e: Event)
    requires f.tasks == map[0 := t] && t.phase == Back && !IsSweep(e)
    ensures FineStep(cfg, f, Do(e)).sys == Apply(cfg, f.sys, e)
    ensures FineStep(cfg, FineStep(cfg, f, Do(e)), Write(0)).sys
      == Apply(cfg, f.sys, e).(repo := WrittenBack(Apply(cfg, f.sys, e).repo, t.row.id))
  {
  }

  /**
    A Create that pulls a code of the page in flight, its own guard met: the write-back takes the
    index back to the Recycled row. The cache serves the new link; index, Update and Remove have the
    old row; and the create endpoint admits the code again.
   */
  lemma {:induction false} CreateInPageMisleads(cfg: Config, s: Sys, id: int, title: string, link: string, expire: int)
    requires Consistent(s) && MayRecycle(s, id) && expire >= s.now
    requires var L := s.repo.links[id].length; 1 <= L <= cfg.max && PoolOf(s.pools, L) == []
    ensures var row := s.repo.links[id];
      var create := Create(row.length, title, link, expire);
      var f := Page(cfg, s, id, Recycled);
      var g := FineStep(cfg, f, Do(create));
      var h := FineStep(cfg, g, Write(0));
      && AgreementGuard(cfg, f.sys, create) && Consistent(f.sys) && Consistent(g.sys)
      && !FlightGuard(cfg, f, Do(create)) && !Consistent(h.sys)
      && Serves(h.sys, s.repo.nextID, row.code, link)
      && CachedItem(h.sys, row.code) == Some(CacheItem(link, expire))
      && Found(h.sys.repo, row.code).Some? && Found(h.sys.repo, row.code).value.id == id
      && EndpointAdmits(h.sys, row.code, false)
  {
    var row, r := s.repo.links[id], RecycleLink(s, id);
    var create := Create(row.length, title, link, expire);
    var f := Page(cfg, s, id, Recycled);
    RecyclePage(cfg, s, id);
    ReturnedIsPulled(cfg, s, id, title, link, expire);
    CodeInFlight(cfg, f, row, create);
    DoThenWrite(cfg, f, f.tasks[0], create);
    WriteAfterCreate(r, id, title, link, expire, Apply(cfg, r, create));
    EndpointMisled(Apply(cfg, r, create).(repo := WrittenBack(Apply(cfg, r, create).repo, id)), row);
  }

  /** The index stays misled until the new link expires: the sweep that marks it writes its entry back. */
  lemma {:induction false} ExpiryRepairsIndex(s: Sys, id: int, n: int, later: int)
    requires Consistent(s) && id in s.repo.links && n in s.repo.links && s.repo.links[n].code == s.repo.links[id].code
    requires s.repo.links[n].status == Active && s.now <= later && s.repo.links[n].expire < later
    ensures var misled := s.(repo := WrittenBack(s.repo, id), now := later);
      && Consistent(ExpireLink(misled, n)) && ExpireLink(misled, n) == ExpireLink(s.(now := later), n)
  {
    var m, t := s.repo, s.(now := later);
    assert RowTracked(m, n) && m.links[id].id == id && m.links[n].id == n;
    assert m.links[id := m.links[id]] == m.links;
    assert m.codeToID[m.links[n].code := id][m.links[n].code := n] == m.codeToID[m.links[n].code := n];
    TickAgrees(s, later);
    MarkAgrees(t, ExpireLink(t, n), n, Expired);
  }

  lemma {:induction false} EndpointMisled(s: Sys, row: ShortLink)
    requires Found(s.repo, row.code) == Some(row.(status := Recycled))
    ensures EndpointAdmits(s, row.code, false)
  {
  }

  lemma {:induction false} CodeInFlight(cfg: Config, f: Fine, row: ShortLink, create: Event)
    requires f.tasks.Keys == {0} && f.tasks[0].row == row && row.id in f.sys.repo.links
    requires create.Create? && 1 <= create.length <= cfg.max && Oldest(f.sys.pools, create.length) == row.code
    ensures !FlightGuard(cfg, f, Do(create))
  {
    assert 0 in f.tasks.Keys && InFlight(f, row.code);
  }

  /** An Update between reading and handling is undone: the link is Expired before its expiry, and served no more. */
  lemma {:induction false} UpdateInPageIsUndone(cfg: Config, s: Sys, id: int, title: string, link: string, expire: int)
    requires Consistent(s) && MayExpire(s, id) && expire >= s.now
    ensures var code := s.repo.links[id].code;
      var update := Update(code, title, link, expire);
      var f := FineStep(cfg, Fine(s, map[]), Read(0, id, Expired, s.now));
      var g := FineStep(cfg, f, Do(update));
      var h := FineStep(cfg, FineStep(cfg, g, Handle(0)), Mark(0));
      && AgreementGuard(cfg, f.sys, update) && !FlightGuard(cfg, f, Do(update))
      && Serves(g.sys, id, code, link)
      && h.sys.repo.links[id].status == Expired && h.sys.repo.links[id].expire >= h.sys.now
      && CachedItem(h.sys, code) == None
  {
    var row := s.repo.links[id];
    assert RowTracked(s.repo, id) && row.id == id && row.length == |row.code|;
    var f := FineStep(cfg, Fine(s, map[]), Read(0, id, Expired, s.now));
    assert 0 in f.tasks.Keys && f.tasks[0] == Task(row, Expired, s.now, Todo);
  }

  lemma {:induction false} RebuildOmitsLive(cfg: Config, L: int, s: Sys, pools: Pools, id: int, removed: set<string>)
    requires Generated(cfg, L) && L <= cfg.max && Owned(cfg, L, s, removed)
    requires id in s.repo.links && s.repo.links[id].length == L && Live(s.repo.links[id])
    ensures var code := s.repo.links[id].code;
      && code in Issued(cfg, s.repo, L)
      && code !in PoolOf(RebuildPool(cfg, s.(pools := pools), L).pools, L)
  {
    assert RowTracked(s.repo, id);
    HomeOf(cfg, L, s, removed, s.repo.links[id].code);
    RebuildExact(cfg, L, s.(pools := pools));
  }

  lemma {:induction false} HandedRow(cfg: Config, s: Sys, id: int)
    requires WellFormed(s.repo) && MayRecycle(s, id)
    ensures var row, before := s.repo.links[id], s.now - YEAR;
      FineStep(cfg, FineStep(cfg, Fine(s, map[]), Read(0, id, Recycled, before)), Handle(0)) ==
        Fine(s.(pools := Appended(s.pools, row.length, [row.code])), map[0 := Task(row, Recycled, before, Half)])
  {
  }

  lemma {:induction false} MarkAfterRebuild(cfg: Config, L: int, f: Fine, id: int)
    requires 0 in f.tasks && f.tasks[0].phase == Half && f.tasks[0].mark == Recycled && f.tasks[0].row.id == id
    ensures FineStep(cfg, FineStep(cfg, f, Do(Rebuild(L))), Mark(0)).sys ==
      RebuildPool(cfg, f.sys, L).(repo := WithMark(f.sys.repo, id, Recycled))
  {
  }

  lemma {:induction false} MarkedNotLive(m: Store, id: int)
    requires WellFormed(m) && id in m.links && RowTracked(m, id) && Live(m.links[id])
    ensures !LiveCode(WithMark(m, id, Recycled), m.links[id].code)
    ensures WithMark(m, id, Recycled).startIndex == m.startIndex
  {
  }

  /** A rebuild between a row's return and its mark takes its code out again, and then nobody has it. */
  lemma {:induction false} RebuildInPageLosesCode(cfg: Config, L: int, s: Sys, id: int, removed: set<string>)
    requires ValidConfig(cfg) && Generated(cfg, L) && L <= cfg.max && Owned(cfg, L, s, removed)
    requires MayRecycle(s, id) && s.repo.links[id].length == L
    ensures var code := s.repo.links[id].code;
      var f := FineStep(cfg, FineStep(cfg, Fine(s, map[]), Read(0, id, Recycled, s.now - YEAR)), Handle(0));
      var g := FineStep(cfg, FineStep(cfg, f, Do(Rebuild(L))), Mark(0));
      && code in Issued(cfg, g.sys.repo, L)
      && code !in PoolOf(g.sys.pools, L) && !LiveCode(g.sys.repo, code)
  {
    var row := s.repo.links[id];
    var f := FineStep(cfg, FineStep(cfg, Fine(s, map[]), Read(0, id, Recycled, s.now - YEAR)), Handle(0));
    HandedRow(cfg, s, id);
    MarkAfterRebuild(cfg, L, f, id);
    RebuildOmitsLive(cfg, L, s, f.sys.pools, id, removed);
    MarkedNotLive(s.repo, id);
  }
}
