/** Starting the service: what happens to the codes of one length. */
module Startup {
  import opened Generator
  import opened Links
  import opened MemoryPool
  import opened Lifecycle
  import opened Ownership

  /** The start finds fewer than 100 pooled codes at index == step, and generates the batch that repeats codes. */
  predicate StartRepeats(cfg: Config, L: int, s: Sys)
    requires L in cfg.steps
  {
    |PoolOf(s.pools, L)| < 100 && cfg.batch != 1 && Index(s.repo, L) == cfg.steps[L]
  }

  /** Not yet at length L: nothing of it has moved. */
  ghost predicate Before(cfg: Config, L: int, s: Sys, removed: set<string>, t: Sys)
    requires Generated(cfg, L)
  {
    && (Owned(cfg, L, s, removed) ==> Owned(cfg, L, t, removed))
    && PoolOf(t.pools, L) == PoolOf(s.pools, L) && Index(t.repo, L) == Index(s.repo, L)
  }

  /** The start finds fewer than 100 pooled codes, at an index that the generator accepts. */
  predicate Short(cfg: Config, L: int, s: Sys)
    requires L in cfg.steps
  {
    |PoolOf(s.pools, L)| < 100 && Index(s.repo, L) <= cfg.steps[L]
  }

  /** A short pool gets the batch at the stored index, which is counted; any other length stays as it is. */
  ghost predicate Filled(cfg: Config, L: int, s: Sys, t: Sys)
    requires 0 <= L && L in cfg.steps && 0 <= cfg.batch
  {
    if Short(cfg, L, s) then
      && PoolOf(t.pools, L) == PoolOf(s.pools, L) + BatchCodes(L, cfg.steps[L], Index(s.repo, L), cfg.batch)
      && Index(t.repo, L) == Index(s.repo, L) + 1
    else PoolOf(t.pools, L) == PoolOf(s.pools, L) && Index(t.repo, L) == Index(s.repo, L)
  }

  /** Past length L. */
  ghost predicate Past(cfg: Config, L: int, s: Sys, removed: set<string>, t: Sys)
    requires Generated(cfg, L)
  {
    Owned(cfg, L, s, removed) ==>
      if StartRepeats(cfg, L, s) then Index(t.repo, L) > Capacity(cfg.batch, cfg.steps[L])
      else Owned(cfg, L, t, removed)
  }
}

/** When starting the service keeps codes owned. */
module StartupSafety {
  import opened Base62
  import opened Generator
  import opened Links
  import opened MemoryPool
  import opened Lifecycle
  import opened Ownership
  import opened HandOut
  import opened Startup

  lemma {:induction false} StartedNext(cfg: Config, s: Sys, upTo: int)
    requires upTo > cfg.manual
    ensures Started(cfg, s, upTo) == StartedLength(cfg, Started(cfg, s, upTo - 1), upTo)
  {
  }

  /** Starting another length. */
  lemma {:induction false} ElsewhereKeeps(cfg: Config, L: int, t: Sys, length: int, removed: set<string>)
    requires ValidConfig(cfg) && Generated(cfg, L) && length != L
    ensures var u := StartedLength(cfg, t, length);
      && PoolOf(u.pools, L) == PoolOf(t.pools, L) && Index(u.repo, L) == Index(t.repo, L)
      && (Owned(cfg, L, t, removed) ==> Owned(cfg, L, u, removed))
  {
    if Owned(cfg, L, t, removed) { GenerateElsewhere(cfg, L, t, length, removed); }
  }

  /** Starting the length itself. */
  lemma {:induction false} HereKeeps(cfg: Config, L: int, t: Sys, removed: set<string>)
    requires ValidConfig(cfg) && Generated(cfg, L) && Owned(cfg, L, t, removed)
    ensures if StartRepeats(cfg, L, t) then Index(StartedLength(cfg, t, L).repo, L) > Capacity(cfg.batch, cfg.steps[L])
            else Owned(cfg, L, StartedLength(cfg, t, L), removed)
  {
    if |PoolOf(t.pools, L)| < 100 {
      GenerateIff(cfg, L, t, L, removed);
      if StartRepeats(cfg, L, t) { GenerateTooLate(cfg, L, t, removed); }
    }
  }

  lemma {:induction false} BeforeNext(cfg: Config, L: int, s: Sys, removed: set<string>, t: Sys, length: int)
    requires ValidConfig(cfg) && Generated(cfg, L)
    ensures length != L && Before(cfg, L, s, removed, t) ==> Before(cfg, L, s, removed, StartedLength(cfg, t, length))
    ensures length != L && Past(cfg, L, s, removed, t) ==> Past(cfg, L, s, removed, StartedLength(cfg, t, length))
    ensures Before(cfg, L, s, removed, t) ==> Past(cfg, L, s, removed, StartedLength(cfg, t, L))
  {
    if length != L { ElsewhereKeeps(cfg, L, t, length, removed); }
    if Before(cfg, L, s, removed, t) && Owned(cfg, L, s, removed) { HereKeeps(cfg, L, t, removed); }
  }

  /** Induction over the lengths: `before` holds until length L is started, and `past` afterwards. */
  lemma {:induction false} StartedInduction(cfg: Config, L: int, s: Sys, before: Sys -> bool, past: Sys -> bool,
          upTo: int)
    requires cfg.manual < L && before(s)
    requires forall t, length :: length != L && before(t) ==> before(StartedLength(cfg, t, length))
    requires forall t, length :: length != L && past(t) ==> past(StartedLength(cfg, t, length))
    requires forall t :: before(t) ==> past(StartedLength(cfg, t, L))
    ensures if upTo < L then before(Started(cfg, s, upTo)) else past(Started(cfg, s, upTo))
    decreases upTo - cfg.manual
  {
    if upTo > cfg.manual {
      StartedInduction(cfg, L, s, before, past, upTo - 1);
      StartedNext(cfg, s, upTo);
    }
  }

  lemma {:induction false} StartedPast(cfg: Config, L: int, s: Sys, removed: set<string>)
    requires ValidConfig(cfg) && Generated(cfg, L) && L <= cfg.max
    ensures Past(cfg, L, s, removed, Started(cfg, s, cfg.max))
  {
    forall t, length
      ensures length != L && Before(cfg, L, s, removed, t) ==> Before(cfg, L, s, removed, StartedLength(cfg, t, length))
      ensures length != L && Past(cfg, L, s, removed, t) ==> Past(cfg, L, s, removed, StartedLength(cfg, t, length))
      ensures Before(cfg, L, s, removed, t) ==> Past(cfg, L, s, removed, StartedLength(cfg, t, L))
    {
      BeforeNext(cfg, L, s, removed, t, length);
    }
    StartedInduction(cfg, L, s, t => Before(cfg, L, s, removed, t), t => Past(cfg, L, s, removed, t), cfg.max);
  }

  /**
    Starting the service keeps a generated length owned exactly when the start itself does not
    generate the batch that repeats codes.
   */
  lemma {:induction false} StartKeepsIff(cfg: Config, L: int, s: Sys, removed: set<string>)
    requires ValidConfig(cfg) && Generated(cfg, L) && L <= cfg.max && Owned(cfg, L, s, removed)
    ensures Owned(cfg, L, Started(cfg, s, cfg.max), removed) <==> !StartRepeats(cfg, L, s)
  {
    StartedPast(cfg, L, s, removed);
    assert Past(cfg, L, s, removed, Started(cfg, s, cfg.max));
  }

  /** A first start leaves every generated length owned. */
  lemma {:induction false} FirstStartOwns(cfg: Config, L: int, now: int)
    requires ValidConfig(cfg) && Generated(cfg, L) && L <= cfg.max && (cfg.batch == 1 || cfg.steps[L] >= 1)
    ensures Owned(cfg, L, Started(cfg, Empty(now), cfg.max), {})
  {
    EmptyIsOwned(cfg, L, now);
    StartKeepsIff(cfg, L, Empty(now), {});
  }

  // ---- a start fills short pools ----

  lemma {:induction false} StartedElsewhere(cfg: Config, L: int, t: Sys, length: int)
    requires length != L
    ensures var u := StartedLength(cfg, t, length);
      PoolOf(u.pools, L) == PoolOf(t.pools, L) && Index(u.repo, L) == Index(t.repo, L)
  {
  }

  lemma {:induction false} StartedHere(cfg: Config, L: int, t: Sys)
    requires 0 <= L && L in cfg.steps && 0 <= cfg.batch
    ensures Filled(cfg, L, t, StartedLength(cfg, t, L))
  {
  }

  /**
    For every configured length the start adds the batch at the stored index and counts it, if fewer
    than 100 codes are pooled and the generator accepts the index; otherwise it leaves pool and index.
    Rows, cache and clock stay as they are.
   */
  lemma {:induction false} StartFillsShortPools(cfg: Config, L: int, s: Sys)
    requires ValidConfig(cfg) && cfg.manual < L <= cfg.max
    ensures var t := Started(cfg, s, cfg.max);
      && Filled(cfg, L, s, t)
      && t.repo == s.repo.(startIndex := t.repo.startIndex) && t.cache == s.cache && t.now == s.now
  {
    var same := (t: Sys) => PoolOf(t.pools, L) == PoolOf(s.pools, L) && Index(t.repo, L) == Index(s.repo, L);
    forall t, length
      ensures length != L && same(t) ==> same(StartedLength(cfg, t, length))
      ensures length != L && Filled(cfg, L, s, t) ==> Filled(cfg, L, s, StartedLength(cfg, t, length))
      ensures same(t) ==> Filled(cfg, L, s, StartedLength(cfg, t, L))
    {
      if length != L { StartedElsewhere(cfg, L, t, length); }
      StartedHere(cfg, L, t);
    }
    StartedInduction(cfg, L, s, same, t => Filled(cfg, L, s, t), cfg.max);
    StartKeepsRows(cfg, s, cfg.max);
  }

  lemma {:induction false} StartKeepsRows(cfg: Config, s: Sys, upTo: int)
    ensures var t := Started(cfg, s, upTo);
      t.repo == s.repo.(startIndex := t.repo.startIndex) && t.cache == s.cache && t.now == s.now
    decreases upTo - cfg.manual
  {
    if upTo > cfg.manual { StartKeepsRows(cfg, s, upTo - 1); }
  }

  lemma {:induction false} FirstStartPool(cfg: Config, L: int, now: int)
    requires ValidConfig(cfg) && cfg.manual < L <= cfg.max && cfg.steps[L] >= 0
    ensures var s := Started(cfg, Empty(now), cfg.max);
      && PoolOf(s.pools, L) == BatchCodes(L, cfg.steps[L], 0, cfg.batch)
      && s.repo.nextID == 1 && s.repo.links == map[]
  {
    StartFillsShortPools(cfg, L, Empty(now));
    assert [] + BatchCodes(L, cfg.steps[L], 0, cfg.batch) == BatchCodes(L, cfg.steps[L], 0, cfg.batch);
  }

  lemma {:induction false} FirstCode(L: nat, B: nat, step: int)
    requires B >= 1 && step >= 0 && step == Step(L, B)
    ensures var codes := BatchCodes(L, step, 0, B);
      codes == [Encode(0, L)] + codes[1..] && |Encode(0, L)| == L
  {
    BatchCodesAt(L, step, 0, B);
    CodeLength(L, B, step, 0, 0);
  }

  /** After a first start a Create gets a code of the length it asks for, the first one generated. */
  lemma {:induction false} FirstCreateHasCode(cfg: Config, L: int, now: int, title: string, link: string, expire: int)
    requires ValidConfig(cfg) && cfg.manual < L <= cfg.max && 1 <= L && cfg.steps[L] >= 0
    ensures var t := Apply(cfg, Started(cfg, Empty(now), cfg.max), Create(L, title, link, expire));
      1 in t.repo.links && t.repo.links[1].code == Encode(0, L) && |t.repo.links[1].code| == L
  {
    var codes := BatchCodes(L, cfg.steps[L], 0, cfg.batch);
    FirstStartPool(cfg, L, now);
    FirstCode(L, cfg.batch, cfg.steps[L]);
    CreateTakesFirst(cfg, Started(cfg, Empty(now), cfg.max), L, title, link, expire, Encode(0, L), codes[1..]);
  }
}
