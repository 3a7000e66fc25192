/** Exclusive ownership and conservation while Creates, generations and sweeps run at once. */
module GoroutineSafety {
  import opened Collections
  import opened Generator
  import opened Links
  import opened MemoryPool
  import opened MemoryCache
  import opened Rows
  import opened Lifecycle
  import opened Ownership
  import opened Flight
  import opened FlightSafety
  import opened Interleaving
  import opened Goroutines

  // ---- the state ahead ----

  lemma {:induction false} RaisedCommutes(cfg: Config, s: Sys, e: Event, L: int)
    requires !e.Create? && !e.Generate? && e != Rebuild(L)
    ensures Apply(cfg, Raised(s, L), e) == Raised(Apply(cfg, s, e), L)
  {
  }

  /** A step of the service or a sweep does ahead what it does to the view. */
  lemma {:induction false} AheadStep(cfg: Config, L: int, c: Crew, a: Act)
    requires Intact(c.fine) && !IsSplit(a) && !(a.Do? && a.e.Rebuild?)
    ensures Ahead(c.(fine := FineStep(cfg, c.fine, a)), L) == ApplyAny(cfg, Ahead(c, L), Coarse(c.fine.tasks, a))
  {
    StepRefines(cfg, c.fine, a);
    if Coarse(c.fine.tasks, a).Some? { RaisedCommutes(cfg, View(c.fine), Coarse(c.fine.tasks, a).value, L); }
  }

  /** Pools and rows of the view, which are those ahead. */
  lemma {:induction false} AheadParts(c: Crew, L: int)
    ensures var s, v := Ahead(c, L), View(c.fine);
      && s.pools == v.pools == c.fine.sys.pools && s.now == v.now && s.repo == v.repo.(startIndex := s.repo.startIndex)
      && Index(s.repo, L) == Index(c.fine.sys.repo, L) + (if Opened(c.gens, L) then 1 else 0)
      && forall k :: k != L ==> Index(s.repo, k) == Index(c.fine.sys.repo, k)
  {
  }

  lemma {:induction false} PoolsAhead(c: Crew, pools: Pools, L: int)
    ensures Ahead(With(c, c.fine.sys.(pools := pools)), L) == Ahead(c, L).(pools := pools)
  {
  }

  // ---- parts of the invariant ----

  lemma {:induction false} SameForOwnership(cfg: Config, L: int, s: Sys, t: Sys, removed: set<string>)
    requires Generated(cfg, L) && t.repo == s.repo && t.pools == s.pools
    ensures Owned(cfg, L, s, removed) ==> Owned(cfg, L, t, removed)
  {
  }

  lemma {:induction false} EventKeeps(cfg: Config, L: int, s: Sys, e: Event, away: set<string>)
    requires ValidConfig(cfg) && Generated(cfg, L) && !e.Generate? && !e.Rebuild? && !e.Add? && !e.Remove?
    ensures Owned(cfg, L, s, away) ==> Owned(cfg, L, Apply(cfg, s, e), away)
  {
    if Owned(cfg, L, s, away) { StepKeepsOwnershipIff(cfg, L, s, e, away); }
  }

  lemma {:induction false} StepMoves(cfg: Config, L: int, c: Crew, a: Act, away: set<string>)
    requires ValidConfig(cfg) && Generated(cfg, L) && Intact(c.fine) && Owned(cfg, L, Ahead(c, L), away)
    requires !IsSplit(a) && !(a.Do? && (a.e.Rebuild? || a.e.Add? || a.e.Remove?))
    ensures Owned(cfg, L, Ahead(c.(fine := FineStep(cfg, c.fine, a)), L), away)
  {
    AheadStep(cfg, L, c, a);
    if Coarse(c.fine.tasks, a).Some? { EventKeeps(cfg, L, Ahead(c, L), Coarse(c.fine.tasks, a).value, away); }
  }

  lemma {:induction false} AddMovesIff(cfg: Config, L: int, c: Crew, e: Event,
          removed: set<string>, others: set<string>)
    requires ValidConfig(cfg) && Generated(cfg, L) && Intact(c.fine) && e.Add? && removed !! others
    requires Owned(cfg, L, Ahead(c, L), removed + others)
    ensures Owned(cfg, L, Ahead(c.(fine := FineStep(cfg, c.fine, Do(e))), L), (removed - {e.code}) + others)
      <==> (|e.code| == L ==> e.code in removed)
  {
    AheadStep(cfg, L, c, Do(e));
    AddOutside(cfg, L, Ahead(c, L), e.code, e.title, e.link, e.expire, removed, others);
  }

  /** A link is added under a code that is away; the code must not be one of the others. */
  lemma {:induction false} AddOutside(cfg: Config, L: int, s: Sys, code: string, title: string, link: string,
          expire: int, removed: set<string>, others: set<string>)
    requires Generated(cfg, L) && Owned(cfg, L, s, removed + others) && removed !! others
    ensures Owned(cfg, L, AddLink(s, code, title, link, expire), (removed - {code}) + others)
      <==> (|code| == L ==> code in removed)
  {
    var t := AddLink(s, code, title, link, expire);
    AddIff(cfg, L, s, code, title, link, expire, removed + others);
    RemovedHaveLength(cfg, L, s, removed + others, code);
    if code in others {
      InsertedRows(s.repo, NewRow(code, title, link, expire));
      LiveNotAway(cfg, L, t, (removed - {code}) + others, code);
    } else {
      assert (removed - {code}) + others == (removed + others) - {code};
    }
  }

  lemma {:induction false} LiveNotAway(cfg: Config, L: int, s: Sys, away: set<string>, code: string)
    requires Generated(cfg, L)
    ensures code in away && |code| == L && LiveCode(s.repo, code) ==> !Owned(cfg, L, s, away)
  {
    if Owned(cfg, L, s, away) { HomeOf(cfg, L, s, away, code); }
  }

  lemma {:induction false} PooledNotAway(cfg: Config, L: int, s: Sys, away: set<string>, code: string)
    requires Generated(cfg, L) && Owned(cfg, L, s, away)
    ensures !(code in away && code in PoolOf(s.pools, L)) && !(code in away && |code| == L && LiveCode(s.repo, code))
  {
    HomeOf(cfg, L, s, away, code);
  }

  lemma {:induction false} RemoveMoves(cfg: Config, L: int, c: Crew, code: string, removed: set<string>,
          others: set<string>)
    requires ValidConfig(cfg) && Generated(cfg, L) && Intact(c.fine) && Owned(cfg, L, Ahead(c, L), removed + others)
    requires removed !! others
    ensures var after := RemovedMoving(cfg, L, c, Step(Do(Remove(code))), removed);
      && after !! others
      && Owned(cfg, L, Ahead(c.(fine := FineStep(cfg, c.fine, Do(Remove(code)))), L), after + others)
  {
    var after := RemovedMoving(cfg, L, c, Step(Do(Remove(code))), removed);
    AheadStep(cfg, L, c, Do(Remove(code)));
    AheadParts(c, L);
    PooledNotAway(cfg, L, Ahead(c, L), removed + others, code);
    assert RemovedAfter(cfg, L, Ahead(c, L), Remove(code), removed + others) == after + others;
    RemoveKeeps(cfg, L, Ahead(c, L), code, removed + others);
  }

  lemma {:induction false} TypedBehind(cfg: Config, L: int, c: Crew, away: set<string>)
    requires Generated(cfg, L) && GensSound(cfg, c.gens) && OneGen(c.fine.sys.repo, c.gens, L)
    ensures Owned(cfg, L, Ahead(c, L), away) ==> Typed(c.fine.sys) && Typed(View(c.fine))
  {
    if Owned(cfg, L, Ahead(c, L), away) {
      AheadParts(c, L);
      forall length ensures Index(c.fine.sys.repo, length) >= 0 {
        assert Index(Ahead(c, L).repo, length) >= 0;
        if length == L && Opened(c.gens, L) {
          var g :| g in c.gens.Keys && c.gens[g].length == L;
          assert GenSound(cfg, c.gens[g]);
        }
      }
      assert forall length, code :: code in PoolOf(c.fine.sys.pools, length) ==> |code| == length;
      SameTyped(c.fine.sys, View(c.fine));
    }
  }

  /** Nothing of the length changes, though pools or indexes of others may. */
  lemma {:induction false} ElsewhereMoves(cfg: Config, L: int, c: Crew, d: Crew, away: set<string>)
    requires Generated(cfg, L) && Owned(cfg, L, Ahead(c, L), away)
    requires d.fine.tasks == c.fine.tasks && (Opened(d.gens, L) <==> Opened(c.gens, L))
    requires d.fine.sys.repo == c.fine.sys.repo.(startIndex := d.fine.sys.repo.startIndex)
    requires Index(d.fine.sys.repo, L) == Index(c.fine.sys.repo, L)
    requires PoolOf(d.fine.sys.pools, L) == PoolOf(c.fine.sys.pools, L) && Typed(Ahead(d, L))
    ensures Owned(cfg, L, Ahead(d, L), away)
  {
    var s, t := Ahead(c, L), Ahead(d, L);
    AheadParts(c, L);
    AheadParts(d, L);
    assert t.repo == s.repo.(startIndex := t.repo.startIndex);
    assert Tracked(t.repo, L) by {
      forall id | id in t.repo.links && t.repo.links[id].length == L ensures RowTracked(t.repo, id) {
        assert RowTracked(s.repo, id);
      }
    }
    Unmoved(cfg, L, s, t, away);
  }

  lemma {:induction false} TypedAhead(c: Crew, L: int)
    requires Typed(c.fine.sys)
    ensures Typed(Ahead(c, L))
  {
    AheadParts(c, L);
    var s := Ahead(c, L);
    forall length ensures Index(s.repo, length) >= 0 {
      assert Index(c.fine.sys.repo, length) >= 0;
    }
    assert forall length, code :: code in PoolOf(s.pools, length) ==> code in PoolOf(c.fine.sys.pools, length);
  }

  lemma {:induction false} RebuildElsewhere(cfg: Config, L: int, c: Crew, length: int, away: set<string>)
    requires ValidConfig(cfg) && Generated(cfg, L) && Owned(cfg, L, Ahead(c, L), away) && length != L
    requires GensSound(cfg, c.gens) && OneGen(c.fine.sys.repo, c.gens, L)
    ensures Owned(cfg, L, Ahead(c.(fine := FineStep(cfg, c.fine, Do(Rebuild(length)))), L), away)
  {
    var d := c.(fine := FineStep(cfg, c.fine, Do(Rebuild(length))));
    TypedBehind(cfg, L, c, away);
    RebuildTyped(cfg, c.fine.sys, length);
    TypedAhead(d, L);
    ElsewhereMoves(cfg, L, c, d, away);
  }

  // ---- a rebuild ----

  lemma {:induction false} IssuedAhead(cfg: Config, L: int, c: Crew)
    requires Generated(cfg, L) && Opened(c.gens, L)
      && 0 <= Index(c.fine.sys.repo, L) < Capacity(cfg.batch, cfg.steps[L])
    ensures Issued(cfg, Ahead(c, L).repo, L) == Issued(cfg, c.fine.sys.repo, L) + Running(cfg, L, c)
    ensures Apart(Issued(cfg, c.fine.sys.repo, L), Running(cfg, L, c)) && Distinct(Running(cfg, L, c))
  {
    var n := Index(c.fine.sys.repo, L);
    AheadParts(c, L);
    IssuedNext(cfg, L, n);
    FreshBatch(L, cfg.batch, cfg.steps[L], n);
    BatchDistinct(L, cfg.batch, cfg.steps[L], n);
  }

  /** The codes of the finished batches, and those of the running one. */
  lemma {:induction false} IssuedParts(cfg: Config, L: int, c: Crew, away: set<string>, code: string)
    requires Generated(cfg, L) && GensSound(cfg, c.gens) && OneGen(c.fine.sys.repo, c.gens, L)
    requires Owned(cfg, L, Ahead(c, L), away)
    ensures 0 <= Index(c.fine.sys.repo, L) <= Capacity(cfg.batch, cfg.steps[L])
    ensures code in Issued(cfg, Ahead(c, L).repo, L) <==>
      code in Issued(cfg, c.fine.sys.repo, L) || code in Running(cfg, L, c)
    ensures !(code in Issued(cfg, c.fine.sys.repo, L) && code in Running(cfg, L, c))
  {
    TypedBehind(cfg, L, c, away);
    AheadParts(c, L);
    if Opened(c.gens, L) { IssuedAhead(cfg, L, c); }
  }

  lemma {:induction false} TodoRuns(cfg: Config, L: int, c: Crew, code: string)
    requires GensSound(cfg, c.gens) && OneGen(c.fine.sys.repo, c.gens, L) && code in ToAdd(c.gens, L)
    ensures code in Running(cfg, L, c) && |code| == L
  {
    var g :| g in c.gens && c.gens[g].length == L && code in c.gens[g].todo;
    assert GenSound(cfg, c.gens[g]) && g in c.gens.Keys;
  }

  /** Where a code is after a rebuild, from where it was. */
  lemma {:induction false} ReturnIff(stored: bool, running: bool, pool: bool, live: bool, half: bool, hand: bool,
          todo: bool, gone: bool)
    requires !(stored && running) && ((stored || running) <==> (pool || live || gone || hand || todo))
    requires !(pool && live) && !(pool && (gone || hand || todo)) && !(live && (gone || hand || todo))
    requires (todo ==> running) && !(half && live)
    ensures var pool', away := stored && !(live || half), (gone && !stored) || hand || todo;
      (((stored || running) <==> (pool' || live || away)) && !(pool' && live) && !(pool' && away) && !(live && away))
        <==> ((stored ==> (half <==> hand)) && !(running && pool))
  {
  }

  lemma {:induction false} ReturnHomeIff(cfg: Config, L: int, c: Crew, removed: set<string>, pool: seq<string>,
          code: string)
    requires Generated(cfg, L) && CrewOwned(cfg, L, c, removed)
    requires code in pool <==>
      code in Issued(cfg, c.fine.sys.repo, L) && !(|code| == L && LiveCode(c.fine.sys.repo, code))
    ensures var s, after := Ahead(c, L), RemovedMoving(cfg, L, c, Step(Do(Rebuild(L))), removed);
      MayReturn(cfg, L, c, code) <==>
        Home(Issued(cfg, s.repo, L), pool, |code| == L && LiveCode(s.repo, code), Away(c, L, after), code)
  {
    var f, s := c.fine, Ahead(c, L);
    var away := Away(c, L, removed);
    HomeOf(cfg, L, s, away, code);
    IssuedParts(cfg, L, c, away, code);
    AheadParts(c, L);
    var live, half := |code| == L && LiveCode(View(f).repo, code), HalfReturned(f.tasks, f.sys.repo.links, L, [code]);
    assert Tracked(View(f).repo, L) by { TrackedBehind(cfg, L, c, away); }
    if |code| == L { UsedInFlight(f, L, code); }
    HalfIsNotLive(f, L, code);
    if code in ToAdd(c.gens, L) { TodoRuns(cfg, L, c, code); }
    ReturnIff(code in Issued(cfg, f.sys.repo, L), code in Running(cfg, L, c), code in PoolOf(s.pools, L), live, half,
              code in InHand(c.hands, L), code in ToAdd(c.gens, L), code in removed);
  }

  lemma {:induction false} HalfIsNotLive(f: Fine, L: int, code: string)
    requires Intact(f)
    ensures HalfReturned(f.tasks, f.sys.repo.links, L, [code]) ==>
      |code| == L && LiveCode(f.sys.repo, code) && !LiveCode(View(f).repo, code)
  {
    if HalfReturned(f.tasks, f.sys.repo.links, L, [code]) { var d := HalfReturnedRow(f, L, [code]); }
  }

  lemma {:induction false} TrackedBehind(cfg: Config, L: int, c: Crew, away: set<string>)
    requires Generated(cfg, L)
    ensures Owned(cfg, L, Ahead(c, L), away) ==> Tracked(View(c.fine).repo, L)
  {
    if Owned(cfg, L, Ahead(c, L), away) {
      AheadParts(c, L);
      var m, n := Ahead(c, L).repo, View(c.fine).repo;
      forall id | id in n.links && n.links[id].length == L ensures RowTracked(n, id) {
        assert RowTracked(m, id);
      }
    }
  }

  lemma {:induction false} SoundBehind(cfg: Config, L: int, c: Crew, removed: set<string>)
    requires Generated(cfg, L) && CrewOwned(cfg, L, c, removed)
    ensures WellFormed(c.fine.sys.repo) && Tracked(c.fine.sys.repo, L)
    ensures 0 <= Index(c.fine.sys.repo, L) <= Capacity(cfg.batch, cfg.steps[L])
  {
    TrackedBehind(cfg, L, c, Away(c, L, removed));
    TrackedInFlight(c.fine, L);
    IssuedParts(cfg, L, c, Away(c, L, removed), "");
  }

  lemma {:induction false} RebuiltPool(cfg: Config, L: int, c: Crew, removed: set<string>, code: string)
    requires Generated(cfg, L) && L <= cfg.max && CrewOwned(cfg, L, c, removed)
    ensures var f := FineStep(cfg, c.fine, Do(Rebuild(L)));
      && f == c.fine.(sys := c.fine.sys.(pools := f.sys.pools))
      && Distinct(PoolOf(f.sys.pools, L))
      && (code in PoolOf(f.sys.pools, L) <==>
            code in Issued(cfg, c.fine.sys.repo, L) && !(|code| == L && LiveCode(c.fine.sys.repo, code)))
  {
    SoundBehind(cfg, L, c, removed);
    RebuildExact(cfg, L, c.fine.sys);
  }

  lemma {:induction false} RebuiltTyped(cfg: Config, L: int, c: Crew, removed: set<string>)
    requires ValidConfig(cfg) && Generated(cfg, L) && CrewOwned(cfg, L, c, removed)
    ensures Typed(FineStep(cfg, c.fine, Do(Rebuild(L))).sys)
  {
    TypedBehind(cfg, L, c, Away(c, L, removed));
    RebuildTyped(cfg, c.fine.sys, L);
  }

  /** A rebuild keeps every code in one place exactly when it may return what it returns. */
  lemma {:induction false} RebuildMovesIff(cfg: Config, L: int, c: Crew, removed: set<string>)
    requires ValidConfig(cfg) && Generated(cfg, L) && CrewOwned(cfg, L, c, removed)
    ensures var after := RemovedMoving(cfg, L, c, Step(Do(Rebuild(L))), removed);
      MayRebuild(cfg, L, c) <==>
        Owned(cfg, L, Ahead(c.(fine := FineStep(cfg, c.fine, Do(Rebuild(L)))), L), Away(c, L, after))
  {
    var d := c.(fine := FineStep(cfg, c.fine, Do(Rebuild(L))));
    var s, t, after := Ahead(c, L), Ahead(d, L), RemovedMoving(cfg, L, c, Step(Do(Rebuild(L))), removed);
    var away := Away(c, L, after);
    var pool := PoolOf(d.fine.sys.pools, L);
    forall code: string
      ensures Home(Issued(cfg, t.repo, L), PoolOf(t.pools, L), |code| == L && LiveCode(t.repo, code), away, code)
        <==> MayReturn(cfg, L, c, code)
    {
      RebuiltPool(cfg, L, c, removed, code);
      ReturnHomeIff(cfg, L, c, removed, pool, code);
    }
    RebuiltPool(cfg, L, c, removed, "");
    RebuiltTyped(cfg, L, c, removed);
    TypedAhead(d, L);
    OwnedByHomes(cfg, L, s, t, Away(c, L, removed), away);
  }

  lemma {:induction false} OwnedByHomes(cfg: Config, L: int, s: Sys, t: Sys, before: set<string>, away: set<string>)
    requires Generated(cfg, L) && Owned(cfg, L, s, before) && t.repo == s.repo
      && Typed(t) && Distinct(PoolOf(t.pools, L))
    ensures Owned(cfg, L, t, away) <==>
      forall code: string ::
        Home(Issued(cfg, t.repo, L), PoolOf(t.pools, L), |code| == L && LiveCode(t.repo, code), away, code)
  {
  }

  // ---- generations ----

  lemma {:induction false} OtherGens(gens: map<int, Gen>, g: int, x: Gen, L: int)
    requires x.length != L && (g in gens ==> gens[g].length != L)
    ensures Opened(gens[g := x], L) <==> Opened(gens, L)
    ensures ToAdd(gens[g := x], L) == ToAdd(gens, L)
  {
    var gens' := gens[g := x];
    if Opened(gens, L) {
      var k :| k in gens.Keys && gens[k].length == L;
      assert k in gens'.Keys && gens'[k] == gens[k];
    }
    forall code ensures code in ToAdd(gens', L) <==> code in ToAdd(gens, L) {
      if code in ToAdd(gens, L) {
        var k :| k in gens && gens[k].length == L && code in gens[k].todo;
        assert k in gens' && gens'[k] == gens[k];
      }
    }
  }

  lemma {:induction false} OnlyGen(m: Store, gens: map<int, Gen>, g: int, L: int)
    requires g in gens && gens[g].length == L && OneGen(m, gens, L)
    ensures Opened(gens, L) && ToAdd(gens, L) == Elements(gens[g].todo)
  {
    assert g in gens.Keys;
    forall code ensures code in ToAdd(gens, L) <==> code in gens[g].todo {}
  }

  lemma {:induction false} NoGen(gens: map<int, Gen>, L: int)
    requires !Opened(gens, L)
    ensures ToAdd(gens, L) == {} && forall g :: g in gens ==> gens[g].length != L
  {
    forall g | g in gens ensures gens[g].length != L { assert g in gens.Keys; }
  }

  lemma {:induction false} OtherOneGen(m: Store, n: Store, gens: map<int, Gen>, g: int, x: Gen, L: int)
    requires OneGen(m, gens, L) && Index(n, L) == Index(m, L) && x.length != L && (g in gens ==> gens[g].length != L)
    ensures OneGen(n, gens[g := x], L) && OneGen(n, gens - {g}, L)
  {
  }

  lemma {:induction false} NewGenSound(cfg: Config, c: Crew, g: int, length: int)
    requires ValidConfig(cfg) && MayRead(cfg, c, g, length) && Index(c.fine.sys.repo, length) >= 0
    ensures var index := Index(c.fine.sys.repo, length);
      GenSound(cfg, Gen(length, index, BatchCodes(length, cfg.steps[length], index, cfg.batch)))
  {
    BatchLength(length, cfg.batch, cfg.steps[length], Index(c.fine.sys.repo, length));
  }

  /** A batch about to be added is away. */
  lemma {:induction false} BeginBatch(cfg: Config, L: int, s: Sys, away: set<string>)
    requires Generated(cfg, L) && Owned(cfg, L, s, away) && Index(s.repo, L) < Capacity(cfg.batch, cfg.steps[L])
    ensures Elements(NextBatch(cfg, s, L)) !! away
    ensures Owned(cfg, L, Raised(s, L), away + Elements(NextBatch(cfg, s, L)))
  {
    NextIsFresh(cfg, L, s);
    IssuedNext(cfg, L, Index(s.repo, L));
    BeginWith(cfg, L, s, away, NextBatch(cfg, s, L));
  }

  lemma {:induction false} BeginWith(cfg: Config, L: int, s: Sys, away: set<string>, codes: seq<string>)
    requires Generated(cfg, L) && Owned(cfg, L, s, away) && Index(s.repo, L) < Capacity(cfg.batch, cfg.steps[L])
    requires Apart(Issued(cfg, s.repo, L), codes)
    requires Issued(cfg, Raised(s, L).repo, L) == Issued(cfg, s.repo, L) + codes
    ensures Elements(codes) !! away && Owned(cfg, L, Raised(s, L), away + Elements(codes))
  {
    SavedTyped(s, L, Index(s.repo, L) + 1);
    HeldBack(Issued(cfg, s.repo, L), PoolOf(s.pools, L), codes, s.repo, L, away);
    SavedRows(s.repo, Raised(s, L).repo, L, Issued(cfg, s.repo, L) + codes, PoolOf(s.pools, L), away + Elements(codes));
  }

  lemma {:induction false} HeldBack(issued: seq<string>, pool: seq<string>, codes: seq<string>, m: Store, L: int,
          away: set<string>)
    requires Accounted(issued, pool, m, L, away) && Apart(issued, codes)
    ensures Elements(codes) !! away && Accounted(issued + codes, pool, m, L, away + Elements(codes))
  {
    forall code | code in Elements(codes) ensures code !in away {
      assert Home(issued, pool, |code| == L && LiveCode(m, code), away, code);
    }
    forall code: string
      ensures Home(issued + codes, pool, |code| == L && LiveCode(m, code), away + Elements(codes), code)
    {
      assert Home(issued, pool, |code| == L && LiveCode(m, code), away, code);
    }
  }

  /** A second generation, or one at index == step, breaks the books at once. */
  lemma {:induction false} ReadTooMuch(cfg: Config, L: int, c: Crew, g: int, removed: set<string>)
    requires Generated(cfg, L) && CrewOwned(cfg, L, c, removed) && MayRead(cfg, c, g, L)
    requires Opened(c.gens, L) || Index(c.fine.sys.repo, L) >= Capacity(cfg.batch, cfg.steps[L])
    ensures !CrewOwned(cfg, L, Moved(cfg, c, ReadIndex(g, L)), removed)
  {
    var d := Moved(cfg, c, ReadIndex(g, L));
    assert g in d.gens && d.gens[g].length == L && g in d.gens.Keys;
    if Opened(c.gens, L) {
      var k :| k in c.gens.Keys && c.gens[k].length == L;
      assert k in d.gens && d.gens[k].length == L && k != g;
    } else {
      AheadParts(d, L);
    }
  }

  lemma {:induction false} ReadFirstHolds(cfg: Config, L: int, c: Crew, g: int, removed: set<string>)
    requires ValidConfig(cfg) && Generated(cfg, L) && Holding(cfg, L, c, removed) && MayRead(cfg, c, g, L)
    requires !Opened(c.gens, L) && 0 <= Index(c.fine.sys.repo, L) < Capacity(cfg.batch, cfg.steps[L])
    ensures var d, batch := Moved(cfg, c, ReadIndex(g, L)), Elements(NextBatch(cfg, c.fine.sys, L));
      && Opened(d.gens, L) && Away(d, L, removed) == Away(c, L, removed) + batch
      && (batch !! Away(c, L, removed) ==> Holding(cfg, L, d, removed))
  {
    var d, n := Moved(cfg, c, ReadIndex(g, L)), Index(c.fine.sys.repo, L);
    NoGen(c.gens, L);
    NewGenSound(cfg, c, g, L);
    BatchDistinct(L, cfg.batch, cfg.steps[L], n);
    assert OneGen(d.fine.sys.repo, d.gens, L);
    OnlyGen(d.fine.sys.repo, d.gens, g, L);
  }

  lemma {:induction false} ReadFirst(cfg: Config, L: int, c: Crew, g: int, removed: set<string>)
    requires ValidConfig(cfg) && Generated(cfg, L) && CrewOwned(cfg, L, c, removed) && MayRead(cfg, c, g, L)
    requires !Opened(c.gens, L) && Index(c.fine.sys.repo, L) < Capacity(cfg.batch, cfg.steps[L])
    ensures CrewOwned(cfg, L, Moved(cfg, c, ReadIndex(g, L)), removed)
  {
    TypedBehind(cfg, L, c, Away(c, L, removed));
    BeginBatch(cfg, L, View(c.fine), Away(c, L, removed));
    ReadFirstHolds(cfg, L, c, g, removed);
  }

  lemma {:induction false} ReadElsewhere(cfg: Config, L: int, c: Crew, g: int, length: int, removed: set<string>)
    requires ValidConfig(cfg) && Generated(cfg, L) && CrewOwned(cfg, L, c, removed) && MayRead(cfg, c, g, length)
    requires length != L
    ensures CrewOwned(cfg, L, Moved(cfg, c, ReadIndex(g, length)), removed)
  {
    var d := Moved(cfg, c, ReadIndex(g, length));
    TypedBehind(cfg, L, c, Away(c, L, removed));
    NewGenSound(cfg, c, g, length);
    OtherGens(c.gens, g, d.gens[g], L);
    OtherOneGen(c.fine.sys.repo, c.fine.sys.repo, c.gens, g, d.gens[g], L);
  }

  lemma {:induction false} ReadMovesIff(cfg: Config, L: int, c: Crew, g: int, length: int, removed: set<string>)
    requires ValidConfig(cfg) && Generated(cfg, L) && CrewOwned(cfg, L, c, removed)
    ensures CrewOwned(cfg, L, Moved(cfg, c, ReadIndex(g, length)), removed)
      <==> MoveGuard(cfg, L, c, ReadIndex(g, length), removed)
  {
    if MayRead(cfg, c, g, length) {
      if length != L {
        ReadElsewhere(cfg, L, c, g, length, removed);
      } else if MoveGuard(cfg, L, c, ReadIndex(g, length), removed) {
        ReadFirst(cfg, L, c, g, removed);
      } else {
        ReadTooMuch(cfg, L, c, g, removed);
      }
    }
  }

  /** A code that was away goes to the pool. */
  lemma {:induction false} Pooled(cfg: Config, L: int, s: Sys, code: string, away: set<string>)
    requires Generated(cfg, L) && Owned(cfg, L, s, away) && code in away
    ensures Owned(cfg, L, s.(pools := Appended(s.pools, L, [code])), away - {code})
  {
    var t, issued, pool := s.(pools := Appended(s.pools, L, [code])), Issued(cfg, s.repo, L), PoolOf(s.pools, L);
    RemovedHaveLength(cfg, L, s, away, code);
    AppendTyped(s, L, [code]);
    HomeOf(cfg, L, s, away, code);
    DistinctAppend(pool, [code]);
    forall d: string ensures Home(issued, pool + [code], |d| == L && LiveCode(s.repo, d), away - {code}, d) {
      HomeOf(cfg, L, s, away, d);
    }
    OwnedByHomes(cfg, L, s, t, away, away - {code});
  }

  lemma {:induction false} AddCodeHolds(cfg: Config, L: int, c: Crew, g: int, removed: set<string>)
    requires Holding(cfg, L, c, removed) && g in c.gens && c.gens[g].length == L && c.gens[g].todo != []
    ensures var d, code := Moved(cfg, c, AddCode(g)), c.gens[g].todo[0];
      && Holding(cfg, L, d, removed) && Opened(d.gens, L) && code in Away(c, L, removed)
      && Away(d, L, removed) == Away(c, L, removed) - {code}
  {
    var d, x := Moved(cfg, c, AddCode(g)), c.gens[g];
    OnlyGen(c.fine.sys.repo, c.gens, g, L);
    assert x.todo[0] in x.todo;
    TailDistinct(x.todo);
    assert OneGen(d.fine.sys.repo, d.gens, L);
    OnlyGen(d.fine.sys.repo, d.gens, g, L);
    SameRowsIntact(c.fine, d.fine.sys);
    assert GenSound(cfg, d.gens[g]) by { assert GenSound(cfg, x); }
  }

  lemma {:induction false} AddCodeHere(cfg: Config, L: int, c: Crew, g: int, removed: set<string>)
    requires Generated(cfg, L) && CrewOwned(cfg, L, c, removed)
    requires g in c.gens && c.gens[g].length == L && c.gens[g].todo != []
    ensures CrewOwned(cfg, L, Moved(cfg, c, AddCode(g)), removed)
  {
    var d, x := Moved(cfg, c, AddCode(g)), c.gens[g];
    AddCodeHolds(cfg, L, c, g, removed);
    Pooled(cfg, L, Ahead(c, L), x.todo[0], Away(c, L, removed));
    OnlyGen(c.fine.sys.repo, c.gens, g, L);
    PoolsAhead(c, d.fine.sys.pools, L);
    assert Ahead(d, L) == Ahead(With(c, d.fine.sys), L);
  }

  lemma {:induction false} AddCodeElsewhereHolds(cfg: Config, L: int, c: Crew, g: int, removed: set<string>)
    requires Holding(cfg, L, c, removed) && g in c.gens && c.gens[g].length != L && c.gens[g].todo != []
    ensures var d := Moved(cfg, c, AddCode(g));
      && Holding(cfg, L, d, removed) && (Opened(d.gens, L) <==> Opened(c.gens, L))
      && Away(d, L, removed) == Away(c, L, removed) && |c.gens[g].todo[0]| == c.gens[g].length
  {
    var d, x := Moved(cfg, c, AddCode(g)), c.gens[g];
    assert GenSound(cfg, x) && x.todo[0] in x.todo;
    assert GenSound(cfg, d.gens[g]);
    OtherGens(c.gens, g, d.gens[g], L);
    OtherOneGen(c.fine.sys.repo, c.fine.sys.repo, c.gens, g, d.gens[g], L);
    SameRowsIntact(c.fine, d.fine.sys);
  }

  lemma {:induction false} AddCodeElsewhere(cfg: Config, L: int, c: Crew, g: int, removed: set<string>)
    requires Generated(cfg, L) && CrewOwned(cfg, L, c, removed)
    requires g in c.gens && c.gens[g].length != L && c.gens[g].todo != []
    ensures CrewOwned(cfg, L, Moved(cfg, c, AddCode(g)), removed)
  {
    var d, x := Moved(cfg, c, AddCode(g)), c.gens[g];
    AddCodeElsewhereHolds(cfg, L, c, g, removed);
    TypedBehind(cfg, L, c, Away(c, L, removed));
    AppendTyped(c.fine.sys, x.length, [x.todo[0]]);
    TypedAhead(d, L);
    ElsewhereMoves(cfg, L, c, d, Away(c, L, removed));
  }

  lemma {:induction false} GensLess(cfg: Config, gens: map<int, Gen>, g: int)
    requires GensSound(cfg, gens)
    ensures GensSound(cfg, gens - {g})
  {
  }

  lemma {:induction false} DoneGen(gens: map<int, Gen>, g: int, L: int)
    requires g in gens && gens[g].todo == []
    ensures ToAdd(gens - {g}, L) == ToAdd(gens, L)
    ensures gens[g].length != L ==> (Opened(gens - {g}, L) <==> Opened(gens, L))
  {
    var gens' := gens - {g};
    forall code ensures code in ToAdd(gens', L) <==> code in ToAdd(gens, L) {
      if code in ToAdd(gens, L) {
        var k :| k in gens && gens[k].length == L && code in gens[k].todo;
        assert k in gens' && gens'[k] == gens[k];
      }
    }
    if gens[g].length != L && Opened(gens, L) {
      var k :| k in gens.Keys && gens[k].length == L;
      assert k in gens'.Keys && gens'[k] == gens[k];
    }
  }

  /** Saving the next index is no step for the state ahead. */
  lemma {:induction false} SaveHolds(cfg: Config, L: int, c: Crew, g: int, removed: set<string>)
    requires Holding(cfg, L, c, removed) && g in c.gens && c.gens[g].length == L && c.gens[g].todo == []
    ensures var d := Moved(cfg, c, SaveIndex(g));
      && Holding(cfg, L, d, removed) && Ahead(d, L) == Ahead(c, L) && Away(d, L, removed) == Away(c, L, removed)
  {
    var d := Moved(cfg, c, SaveIndex(g));
    OnlyGen(c.fine.sys.repo, c.gens, g, L);
    DoneGen(c.gens, g, L);
    GensLess(cfg, c.gens, g);
    assert !Opened(d.gens, L);
    SameRowsIntact(c.fine, d.fine.sys);
  }

  lemma {:induction false} SaveHere(cfg: Config, L: int, c: Crew, g: int, removed: set<string>)
    requires Generated(cfg, L) && CrewOwned(cfg, L, c, removed)
    requires g in c.gens && c.gens[g].length == L && c.gens[g].todo == []
    ensures CrewOwned(cfg, L, Moved(cfg, c, SaveIndex(g)), removed)
  {
    SaveHolds(cfg, L, c, g, removed);
  }

  lemma {:induction false} SaveElsewhere(cfg: Config, L: int, c: Crew, g: int, removed: set<string>)
    requires Generated(cfg, L) && CrewOwned(cfg, L, c, removed)
    requires g in c.gens && c.gens[g].length != L && c.gens[g].todo == []
    ensures CrewOwned(cfg, L, Moved(cfg, c, SaveIndex(g)), removed)
  {
    var d, x := Moved(cfg, c, SaveIndex(g)), c.gens[g];
    assert GenSound(cfg, x);
    DoneGen(c.gens, g, L);
    GensLess(cfg, c.gens, g);
    OtherOneGen(c.fine.sys.repo, d.fine.sys.repo, c.gens, g, x, L);
    SameRowsIntact(c.fine, d.fine.sys);
    TypedBehind(cfg, L, c, Away(c, L, removed));
    SavedTyped(c.fine.sys, x.length, x.index + 1);
    TypedAhead(d, L);
    ElsewhereMoves(cfg, L, c, d, Away(c, L, removed));
  }

  // ---- Creates ----

  lemma {:induction false} HandTaken(hands: map<int, Hand>, h: int, x: Hand, L: int)
    requires h !in hands
    ensures InHand(hands[h := x], L) == InHand(hands, L) + if |x.code| == L then {x.code} else {}
    ensures HandsApart(hands, L) && (|x.code| == L ==> x.code !in InHand(hands, L)) ==> HandsApart(hands[h := x], L)
  {
    var hands' := hands[h := x];
    forall code ensures code in InHand(hands', L) <==> code in InHand(hands, L) || (|x.code| == L && code == x.code) {
      if code in InHand(hands, L) {
        var k :| k in hands && |hands[k].code| == L && hands[k].code == code;
        assert k in hands' && hands'[k] == hands[k];
      }
      assert h in hands' && hands'[h] == x;
    }
  }

  lemma {:induction false} HandGiven(hands: map<int, Hand>, h: int, L: int)
    requires h in hands && HandsApart(hands, L)
    ensures InHand(hands - {h}, L) == InHand(hands, L) - (if |hands[h].code| == L then {hands[h].code} else {})
    ensures HandsApart(hands - {h}, L)
  {
    var hands', x := hands - {h}, hands[h];
    forall code ensures code in InHand(hands', L) <==> code in InHand(hands, L) && !(|x.code| == L && code == x.code) {
      if code in InHand(hands, L) && !(|x.code| == L && code == x.code) {
        var k :| k in hands && |hands[k].code| == L && hands[k].code == code;
        assert k in hands' && hands'[k] == hands[k];
      }
    }
  }

  lemma {:induction false} PullHolds(cfg: Config, L: int, c: Crew, m: Move, removed: set<string>)
    requires Holding(cfg, L, c, removed) && m.Pull? && m.h !in c.hands && 1 <= m.length <= cfg.max
    ensures var d, code := Moved(cfg, c, m), Oldest(c.fine.sys.pools, m.length);
      && Away(d, L, removed) == Away(c, L, removed) + (if |code| == L then {code} else {})
      && ((|code| == L ==> code !in Away(c, L, removed)) ==> Holding(cfg, L, d, removed))
  {
    var d := Moved(cfg, c, m);
    HandTaken(c.hands, m.h, d.hands[m.h], L);
    SameRowsIntact(c.fine, d.fine.sys);
  }

  lemma {:induction false} PullMoves(cfg: Config, L: int, c: Crew, m: Move, removed: set<string>)
    requires Generated(cfg, L) && CrewOwned(cfg, L, c, removed) && m.Pull?
    ensures CrewOwned(cfg, L, Moved(cfg, c, m), removed)
  {
    if m.h !in c.hands && 1 <= m.length <= cfg.max {
      var d, away := Moved(cfg, c, m), Away(c, L, removed);
      PoolsAhead(c, d.fine.sys.pools, L);
      AheadParts(c, L);
      PullKeeps(cfg, L, Ahead(c, L), m.length, away);
      PullHolds(cfg, L, c, m, removed);
    }
  }

  lemma {:induction false} CacheAhead(c: Crew, cache: Cache, L: int)
    ensures Ahead(With(c, c.fine.sys.(cache := cache)), L) == Ahead(c, L).(cache := cache)
  {
  }

  lemma {:induction false} PublishMoves(cfg: Config, L: int, c: Crew, h: int, removed: set<string>)
    requires Generated(cfg, L) && CrewOwned(cfg, L, c, removed)
    ensures CrewOwned(cfg, L, Moved(cfg, c, Publish(h)), removed)
  {
    if h in c.hands {
      var d, x := Moved(cfg, c, Publish(h)), c.hands[h];
      CacheAhead(c, d.fine.sys.cache, L);
      SameForOwnership(cfg, L, Ahead(c, L), Ahead(d, L), Away(c, L, removed));
      SameRowsIntact(c.fine, d.fine.sys);
    }
  }

  lemma {:induction false} InsertedAhead(c: Crew, d: Crew, L: int, row: ShortLink)
    requires Intact(c.fine) && d.gens == c.gens
    requires d.fine == c.fine.(sys := c.fine.sys.(repo := Inserted(c.fine.sys.repo, row)))
    ensures Ahead(d, L) == Ahead(c, L).(repo := Inserted(Ahead(c, L).repo, row))
  {
    InsertViewed(c.fine, row);
  }

  lemma {:induction false} InsertHolds(cfg: Config, L: int, c: Crew, h: int, removed: set<string>)
    requires Holding(cfg, L, c, removed) && h in c.hands
    ensures var d, code := Moved(cfg, c, Insert(h)), c.hands[h].code;
      && (|code| == L ==> code in Away(c, L, removed))
      && Away(d, L, removed) == Away(c, L, removed) - (if |code| == L then {code} else {})
      && (Holding(cfg, L, d, removed) <==> !InFlight(c.fine, code))
  {
    var d, x := Moved(cfg, c, Insert(h)), c.hands[h];
    HandGiven(c.hands, h, L);
    if |x.code| == L { assert x.code in InHand(c.hands, L); }
    InsertIntactIff(c.fine, NewRow(x.code, x.title, x.link, x.expire), d.fine.sys);
    assert OneGen(d.fine.sys.repo, d.gens, L) by { assert Index(d.fine.sys.repo, L) == Index(c.fine.sys.repo, L); }
  }

  lemma {:induction false} InsertOwns(cfg: Config, L: int, s: Sys, t: Sys, x: Hand, away: set<string>)
    requires Generated(cfg, L) && Owned(cfg, L, s, away) && (|x.code| == L ==> x.code in away)
    requires t == s.(repo := Inserted(s.repo, NewRow(x.code, x.title, x.link, x.expire)))
    ensures Owned(cfg, L, t, away - if |x.code| == L then {x.code} else {})
  {
    AddIff(cfg, L, s, x.code, x.title, x.link, x.expire, away);
    RemovedHaveLength(cfg, L, s, away, x.code);
    assert away - {x.code} == away - if |x.code| == L then {x.code} else {};
    SameForOwnership(cfg, L, AddLink(s, x.code, x.title, x.link, x.expire), t, away - {x.code});
  }

  lemma {:induction false} InsertMovesIff(cfg: Config, L: int, c: Crew, h: int, removed: set<string>)
    requires Generated(cfg, L) && CrewOwned(cfg, L, c, removed)
    ensures CrewOwned(cfg, L, Moved(cfg, c, Insert(h)), removed) <==> MoveGuard(cfg, L, c, Insert(h), removed)
  {
    if h in c.hands {
      var d, x := Moved(cfg, c, Insert(h)), c.hands[h];
      InsertHolds(cfg, L, c, h, removed);
      InsertedAhead(c, d, L, NewRow(x.code, x.title, x.link, x.expire));
      InsertOwns(cfg, L, Ahead(c, L), Ahead(d, L), x, Away(c, L, removed));
    }
  }

  // ---- every step, every run ----

  lemma {:induction false} FinePartsStay(cfg: Config, L: int, c: Crew, a: Act)
    requires !(a.Do? && a.e.Generate?) && OneGen(c.fine.sys.repo, c.gens, L)
    ensures OneGen(FineStep(cfg, c.fine, a).sys.repo, c.gens, L)
  {
    assert Index(FineStep(cfg, c.fine, a).sys.repo, L) == Index(c.fine.sys.repo, L);
  }

  /** What ownership of the length asks of a step of the service. */
  ghost predicate StepGuard(cfg: Config, L: int, c: Crew, a: Act, removed: set<string>) {
    && (a.Do? && a.e.Add? && |a.e.code| == L ==> a.e.code in removed)
    && (a == Do(Rebuild(L)) ==> MayRebuild(cfg, L, c))
  }

  lemma {:induction false} RemovedStays(cfg: Config, L: int, c: Crew, a: Act, removed: set<string>)
    requires !IsSplit(a) && !(a.Do? && a.e.Remove?) && a != Do(Rebuild(L))
    ensures RemovedMoving(cfg, L, c, Step(a), removed) == if a.Do? && a.e.Add? then removed - {a.e.code} else removed
  {
  }

  lemma {:induction false} RebuildStepIff(cfg: Config, L: int, c: Crew, removed: set<string>, others: set<string>)
    requires ValidConfig(cfg) && Generated(cfg, L) && CrewOwned(cfg, L, c, removed)
    requires others == InHand(c.hands, L) + ToAdd(c.gens, L)
    ensures var a := Do(Rebuild(L));
      var after := RemovedMoving(cfg, L, c, Step(a), removed);
      Owned(cfg, L, Ahead(c.(fine := FineStep(cfg, c.fine, a)), L), after + others) <==>
        StepGuard(cfg, L, c, a, removed)
  {
    AwayIs(c, L, RemovedMoving(cfg, L, c, Step(Do(Rebuild(L))), removed), others);
    RebuildMovesIff(cfg, L, c, removed);
  }

  lemma {:induction false} OtherMoves(cfg: Config, L: int, c: Crew, a: Act, away: set<string>)
    requires ValidConfig(cfg) && Generated(cfg, L) && Intact(c.fine) && Owned(cfg, L, Ahead(c, L), away)
    requires GensSound(cfg, c.gens) && OneGen(c.fine.sys.repo, c.gens, L)
    requires !IsSplit(a) && !(a.Do? && (a.e.Add? || a.e.Remove?)) && a != Do(Rebuild(L))
    ensures Owned(cfg, L, Ahead(c.(fine := FineStep(cfg, c.fine, a)), L), away)
  {
    if a.Do? && a.e.Rebuild? {
      RebuildElsewhere(cfg, L, c, a.e.length, away);
    } else {
      StepMoves(cfg, L, c, a, away);
    }
  }

  lemma {:induction false} FineMovesIff(cfg: Config, L: int, c: Crew, a: Act, removed: set<string>,
          others: set<string>)
    requires ValidConfig(cfg) && Generated(cfg, L) && CrewOwned(cfg, L, c, removed) && !IsSplit(a)
    requires others == InHand(c.hands, L) + ToAdd(c.gens, L)
    ensures var after := RemovedMoving(cfg, L, c, Step(a), removed);
      && after !! others
      && (Owned(cfg, L, Ahead(c.(fine := FineStep(cfg, c.fine, a)), L), after + others) <==>
        StepGuard(cfg, L, c, a, removed))
  {
    AwayIs(c, L, removed, others);
    if a == Do(Rebuild(L)) {
      RebuildStepIff(cfg, L, c, removed, others);
    } else if a.Do? && a.e.Remove? {
      RemoveMoves(cfg, L, c, a.e.code, removed, others);
    } else {
      RemovedStays(cfg, L, c, a, removed);
      if a.Do? && a.e.Add? {
        AddMovesIff(cfg, L, c, a.e, removed, others);
      } else {
        OtherMoves(cfg, L, c, a, removed + others);
      }
    }
  }

  lemma {:induction false} AwayIs(c: Crew, L: int, removed: set<string>, others: set<string>)
    requires others == InHand(c.hands, L) + ToAdd(c.gens, L)
    ensures Away(c, L, removed) == removed + others
  {
  }

  lemma {:induction false} StepMovesIff(cfg: Config, L: int, c: Crew, a: Act, removed: set<string>)
    requires ValidConfig(cfg) && Generated(cfg, L) && CrewOwned(cfg, L, c, removed) && !IsSplit(a)
    ensures CrewOwned(cfg, L, Moved(cfg, c, Step(a)), RemovedMoving(cfg, L, c, Step(a), removed))
      <==> FlightGuard(cfg, c.fine, a) && StepGuard(cfg, L, c, a, removed)
  {
    var d, after := Moved(cfg, c, Step(a)), RemovedMoving(cfg, L, c, Step(a), removed);
    var others := InHand(c.hands, L) + ToAdd(c.gens, L);
    StepKeepsIntactIff(cfg, c.fine, a);
    FinePartsStay(cfg, L, c, a);
    FineMovesIff(cfg, L, c, a, removed, others);
    AwayIs(d, L, after, others);
  }

  /** A step of any goroutine keeps every code of the length in one place exactly when its guard holds. */
  lemma {:induction false} MoveKeepsIff(cfg: Config, L: int, c: Crew, m: Move, removed: set<string>)
    requires ValidConfig(cfg) && Generated(cfg, L) && CrewOwned(cfg, L, c, removed)
    ensures CrewOwned(cfg, L, Moved(cfg, c, m), RemovedMoving(cfg, L, c, m, removed))
      <==> MoveGuard(cfg, L, c, m, removed)
  {
    match m
    case Step(a) =>
      if !IsSplit(a) { StepMovesIff(cfg, L, c, a, removed); }
    case ReadIndex(g, length) => ReadMovesIff(cfg, L, c, g, length, removed);
    case AddCode(g) =>
      if g in c.gens && c.gens[g].todo != [] {
        if c.gens[g].length == L {
          AddCodeHere(cfg, L, c, g, removed);
        } else {
          AddCodeElsewhere(cfg, L, c, g, removed);
        }
      }
    case SaveIndex(g) =>
      if g in c.gens && c.gens[g].todo == [] {
        if c.gens[g].length == L { SaveHere(cfg, L, c, g, removed); } else { SaveElsewhere(cfg, L, c, g, removed); }
      }
    case Pull(h, length, title, link, expire) => PullMoves(cfg, L, c, m, removed);
    case Publish(h) => PublishMoves(cfg, L, c, h, removed);
    case Insert(h) => InsertMovesIff(cfg, L, c, h, removed);
  }

  lemma {:induction false} IdleIsOwned(cfg: Config, L: int, now: int)
    requires Generated(cfg, L)
    ensures CrewOwned(cfg, L, Idle(now), {})
  {
    var c := Idle(now);
    assert View(c.fine) == Empty(now) by { assert Viewed(map[], map[]) == map[]; }
    EmptyIsOwned(cfg, L, now);
    assert Away(c, L, {}) == {};
  }

  lemma {:induction false} CrewOwnedThroughout(cfg: Config, L: int, now: int, ms: seq<Move>)
    requires ValidConfig(cfg) && Generated(cfg, L) && MovesGuarded(cfg, L, Idle(now), ms)
    ensures CrewOwned(cfg, L, MoveAll(cfg, Idle(now), ms), RemovedAlong(cfg, L, Idle(now), ms))
  {
    if ms == [] {
      IdleIsOwned(cfg, L, now);
    } else {
      var front := ms[..|ms| - 1];
      CrewOwnedThroughout(cfg, L, now, front);
      MoveKeepsIff(cfg, L, MoveAll(cfg, Idle(now), front), ms[|ms| - 1], RemovedAlong(cfg, L, Idle(now), front));
    }
  }

  lemma {:induction false} OwnedCrewIsExclusive(cfg: Config, L: int, c: Crew, removed: set<string>)
    requires Generated(cfg, L) && CrewOwned(cfg, L, c, removed)
    ensures CrewExclusive(L, c)
  {
    var s, away := Ahead(c, L), Away(c, L, removed);
    AheadParts(c, L);
    OwnedIsExclusive(cfg, L, s, away);
    assert LiveIds(s.repo, L) == LiveIds(View(c.fine).repo, L);
    forall code | code in InHand(c.hands, L)
      ensures code !in PoolOf(c.fine.sys.pools, L) && !LiveCode(View(c.fine).repo, code)
    {
      PooledNotAway(cfg, L, s, away, code);
    }
  }

  lemma {:induction false} OwnedCrewIsConserved(cfg: Config, L: int, c: Crew, removed: set<string>)
    requires Generated(cfg, L) && CrewOwned(cfg, L, c, removed)
    ensures CrewConserved(cfg, L, c, removed)
  {
    var s, away := Ahead(c, L), Away(c, L, removed);
    AheadParts(c, L);
    OwnedIsConserved(cfg, L, s, away);
    assert LiveIds(s.repo, L) == LiveIds(View(c.fine).repo, L);
    assert |away| == |removed| + |InHand(c.hands, L)| + |ToAdd(c.gens, L)|;
  }

  /**
    While Creates, generations and sweeps run at once, each step meeting its guard: pooled codes, live
    links and codes in hand are apart, and with the codes still to be added and those taken away by
    Remove they count up to the codes of all batches begun.
   */
  lemma {:induction false} OwnershipAmongGoroutines(cfg: Config, L: int, now: int, ms: seq<Move>)
    requires ValidConfig(cfg) && cfg.manual < L <= cfg.max && Usable(cfg, L) && MovesGuarded(cfg, L, Idle(now), ms)
    ensures CrewExclusive(L, MoveAll(cfg, Idle(now), ms))
    ensures CrewConserved(cfg, L, MoveAll(cfg, Idle(now), ms), RemovedAlong(cfg, L, Idle(now), ms))
  {
    var c, removed := MoveAll(cfg, Idle(now), ms), RemovedAlong(cfg, L, Idle(now), ms);
    ConfiguredLengthsAreGenerated(cfg, L);
    CrewOwnedThroughout(cfg, L, now, ms);
    OwnedCrewIsExclusive(cfg, L, c, removed);
    OwnedCrewIsConserved(cfg, L, c, removed);
  }

  // ---- what happens otherwise ----

  lemma {:induction false} BothRead(cfg: Config, L: int, c: Crew, g: int, k: int)
    requires g != k && cfg.batch >= 1 && MayRead(cfg, c, g, L) && k !in c.gens
    ensures var d := Moved(cfg, Moved(cfg, c, ReadIndex(g, L)), ReadIndex(k, L));
      && d.fine == c.fine && g in d.gens && k in d.gens && d.gens[g] == d.gens[k]
      && d.gens[g].length == L && d.gens[g].todo != []
  {
  }

  lemma {:induction false} BothAdd(cfg: Config, L: int, c: Crew, g: int, k: int)
    requires g != k && g in c.gens && k in c.gens && c.gens[g] == c.gens[k]
    requires c.gens[g].length == L && c.gens[g].todo != []
    ensures var d := Moved(cfg, Moved(cfg, c, AddCode(g)), AddCode(k));
      PoolOf(d.fine.sys.pools, L) == PoolOf(c.fine.sys.pools, L) + [c.gens[g].todo[0]] + [c.gens[g].todo[0]]
  {
  }

  /**
    Two Creates that leave ten codes or fewer start two generations, and the in-memory lock refuses
    neither. If both read the index before one saves the next, they add the same codes.
   */
  lemma {:induction false} TwoGenerationsShareBatch(cfg: Config, L: int, c: Crew, g: int, k: int, removed: set<string>)
    requires ValidConfig(cfg) && Generated(cfg, L) && CrewOwned(cfg, L, c, removed)
    requires g != k && MayRead(cfg, c, g, L) && k !in c.gens
    ensures var b := Moved(cfg, c, ReadIndex(g, L));
      var d := Moved(cfg, Moved(cfg, Moved(cfg, b, ReadIndex(k, L)), AddCode(g)), AddCode(k));
      && !MoveGuard(cfg, L, b, ReadIndex(k, L), removed)
      && !Distinct(PoolOf(d.fine.sys.pools, L)) && !CrewExclusive(L, d)
  {
    var b := Moved(cfg, c, ReadIndex(g, L));
    var e := Moved(cfg, b, ReadIndex(k, L));
    BothRead(cfg, L, c, g, k);
    BothAdd(cfg, L, e, g, k);
    assert g in b.gens.Keys && b.gens[g].length == L;
    TwiceIsNotDistinct(PoolOf(c.fine.sys.pools, L), e.gens[g].todo[0]);
  }

  lemma {:induction false} TwiceIsNotDistinct(pool: seq<string>, code: string)
    ensures !Distinct(pool + [code] + [code])
  {
    var twice := pool + [code] + [code];
    assert twice[|pool|] == twice[|pool| + 1];
  }

  lemma {:induction false} InsertedIsLive(cfg: Config, c: Crew, h: int)
    requires h in c.hands
    ensures var d := Moved(cfg, c, Insert(h));
      LiveCode(d.fine.sys.repo, c.hands[h].code) && d.fine.sys.pools == c.fine.sys.pools
  {
  }

  lemma {:induction false} HandStopsRebuild(cfg: Config, L: int, c: Crew, code: string, removed: set<string>)
    requires Intact(c.fine) && code in InHand(c.hands, L) && code in Issued(cfg, c.fine.sys.repo, L)
    requires !LiveCode(c.fine.sys.repo, code)
    ensures !MoveGuard(cfg, L, c, Step(Do(Rebuild(L))), removed)
  {
    HalfIsNotLive(c.fine, L, code);
    assert !MayReturn(cfg, L, c, code);
  }

  /** A rebuild while a pulled code is in hand pools it again, and then a live link and the pool have it. */
  lemma {:induction false} RebuildSharesHand(cfg: Config, L: int, c: Crew, h: int, removed: set<string>)
    requires ValidConfig(cfg) && Generated(cfg, L) && CrewOwned(cfg, L, c, removed)
    requires h in c.hands && |c.hands[h].code| == L && c.hands[h].code in Issued(cfg, c.fine.sys.repo, L)
    requires !LiveCode(c.fine.sys.repo, c.hands[h].code)
    ensures !MoveGuard(cfg, L, c, Step(Do(Rebuild(L))), removed)
    ensures var d := Moved(cfg, Moved(cfg, c, Step(Do(Rebuild(L)))), Insert(h));
      c.hands[h].code in PoolOf(d.fine.sys.pools, L) && LiveCode(d.fine.sys.repo, c.hands[h].code)
  {
    RebuiltPool(cfg, L, c, removed, c.hands[h].code);
    HandStopsRebuild(cfg, L, c, c.hands[h].code, removed);
    InsertedIsLive(cfg, Moved(cfg, c, Step(Do(Rebuild(L)))), h);
  }

  /** And when both have saved, the batch they added twice is counted once. */
  lemma {:induction false} SharedBatchCountsOnce(cfg: Config, c: Crew, g: int, k: int)
    requires g != k && g in c.gens && k in c.gens && c.gens[g] == c.gens[k] && c.gens[g].todo == []
    ensures var d := Moved(cfg, Moved(cfg, c, SaveIndex(g)), SaveIndex(k));
      Index(d.fine.sys.repo, c.gens[g].length) == c.gens[g].index + 1
  {
    assert k in Moved(cfg, c, SaveIndex(g)).gens;
  }
}
