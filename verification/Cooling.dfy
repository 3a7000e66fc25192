/** A recycled code is handed out again only after its cooling period. */
module Cooling {
  import opened Links
  import opened MemoryPool
  import opened Rows
  import opened Lifecycle
  import opened Ownership

  /** Every Recycled link of the length expired more than 365 days ago. */
  ghost predicate Cooled(s: Sys, L: int) {
    forall id :: id in s.repo.links && s.repo.links[id].length == L && s.repo.links[id].status == Recycled ==>
      s.repo.links[id].expire < s.now - YEAR
  }

  /** An update of a Recycled link does not move its expiry into the last 365 days or the future. */
  predicate CoolingGuard(s: Sys, e: Event, L: int) {
    match e
    case Update(code, _, _, expire) =>
      match Found(s.repo, code) {
        case Some(row) => row.status == Recycled && row.length == L ==> expire < s.now - YEAR
        case None => true
      }
    case _ => true
  }

  lemma {:induction false} UpdateCoolsIff(s: Sys, code: string, title: string, link: string, expire: int, L: int)
    requires WellFormed(s.repo) && Cooled(s, L) && Found(s.repo, code).Some?
    ensures Cooled(UpdateLink(s, code, title, link, expire), L)
      <==> CoolingGuard(s, Update(code, title, link, expire), L)
  {
    var t, id := UpdateLink(s, code, title, link, expire), s.repo.codeToID[code];
    UpdatedRow(s.repo, code, title, link, expire);
    assert id in t.repo.links && t.repo.links[id].expire == expire;
  }

  /** A step keeps every Recycled link cooled exactly when its guard holds. */
  lemma {:induction false} StepCoolsIff(cfg: Config, s: Sys, e: Event, L: int)
    requires WellFormed(s.repo) && Cooled(s, L)
    ensures Cooled(Apply(cfg, s, e), L) <==> CoolingGuard(s, e, L)
  {
    match e
    case Update(code, title, link, expire) =>
      if Found(s.repo, code).Some? { UpdateCoolsIff(s, code, title, link, expire, L); }
    case _ =>
      var t := Apply(cfg, s, e);
      forall id | id in t.repo.links && t.repo.links[id].length == L && t.repo.links[id].status == Recycled
        ensures t.repo.links[id].expire < t.now - YEAR
      {
      }
  }

  lemma {:induction false} CooledThroughout(cfg: Config, L: int, now: int, es: seq<Event>)
    requires ValidConfig(cfg) && Generated(cfg, L) && Guarded(cfg, L, Empty(now), es)
    requires Along(cfg, Empty(now), es, (s, e) => CoolingGuard(s, e, L))
    ensures Cooled(Run(cfg, Empty(now), es), L)
  {
    if es != [] {
      var front := es[..|es| - 1];
      CooledThroughout(cfg, L, now, front);
      OwnedThroughout(cfg, L, now, front);
      StepCoolsIff(cfg, Run(cfg, Empty(now), front), es[|es| - 1], L);
    }
  }

  ghost predicate AllRowsKept(m: Store) {
    forall id :: 1 <= id < m.nextID ==> id in m.links
  }

  lemma {:induction false} StepKeepsRows(cfg: Config, s: Sys, e: Event)
    requires !e.Remove? && AllRowsKept(s.repo)
    ensures AllRowsKept(Apply(cfg, s, e).repo)
  {
    var t := Apply(cfg, s, e);
    assert s.repo.links.Keys <= t.repo.links.Keys;
    forall id | 1 <= id < t.repo.nextID ensures id in t.repo.links {
      if id < s.repo.nextID { assert id in s.repo.links.Keys; }
    }
  }

  lemma {:induction false} NoRemoveKeepsRows(cfg: Config, now: int, es: seq<Event>)
    requires forall e :: e in es ==> !e.Remove?
    ensures AllRowsKept(Run(cfg, Empty(now), es).repo)
  {
    if es != [] {
      var front, e := es[..|es| - 1], es[|es| - 1];
      assert forall f :: f in front ==> f in es;
      NoRemoveKeepsRows(cfg, now, front);
      assert e in es;
      StepKeepsRows(cfg, Run(cfg, Empty(now), front), e);
    }
  }

  /**
    In a guarded run, a link created from a pool of generated codes gets a code whose every earlier
    link still stored expired more than 365 days before; without Remove, all of them are stored.
   */
  lemma {:induction false} CoolingPeriod(cfg: Config, L: int, now: int, es: seq<Event>,
          title: string, link: string, expire: int)
    requires ValidConfig(cfg) && cfg.manual < L <= cfg.max && Usable(cfg, L) && Guarded(cfg, L, Empty(now), es)
    requires Along(cfg, Empty(now), es, (s, e) => CoolingGuard(s, e, L))
    requires PoolOf(Run(cfg, Empty(now), es).pools, L) != []
    ensures var s := Run(cfg, Empty(now), es);
      var n, t := s.repo.nextID, CreateLink(cfg, s, L, title, link, expire);
      && n in t.repo.links && t.repo.links[n].status == Active
      && (forall id :: id in t.repo.links && id != n && t.repo.links[id].code == t.repo.links[n].code ==>
            t.repo.links[id].status == Recycled && t.repo.links[id].expire + 365 * 24 * 3600 * 1_000_000_000 < s.now)
      && ((forall e :: e in es ==> !e.Remove?) ==> forall id :: 1 <= id < n ==> id in t.repo.links)
  {
    var s, removed := Run(cfg, Empty(now), es), RemovedBy(cfg, L, Empty(now), es);
    ConfiguredLengthsAreGenerated(cfg, L);
    OwnedThroughout(cfg, L, now, es);
    CooledThroughout(cfg, L, now, es);
    if forall e :: e in es ==> !e.Remove? { NoRemoveKeepsRows(cfg, now, es); }
    var code := Oldest(s.pools, L);
    HomeOf(cfg, L, s, removed, code);
    assert code in PoolOf(s.pools, L) && |code| == L;
    forall id | id in s.repo.links && s.repo.links[id].code == code
      ensures s.repo.links[id].status == Recycled && s.repo.links[id].expire + YEAR < s.now
    {
      assert RowTracked(s.repo, id);
    }
  }

  /** Remove does not cool: after a rebuild every removed code is in the pool, whenever it was removed. */
  lemma {:induction false} RemovedCodesReturnAtOnce(cfg: Config, L: int, s: Sys, removed: set<string>, c: string)
    requires ValidConfig(cfg) && Generated(cfg, L) && Owned(cfg, L, s, removed) && c in removed
    ensures c in PoolOf(RebuildPool(cfg, s, L).pools, L)
  {
    RemovedReturns(cfg, L, s, removed, c);
  }

  lemma {:induction false} RemovedReturns(cfg: Config, L: int, s: Sys, removed: set<string>, c: string)
    requires Generated(cfg, L) && Owned(cfg, L, s, removed)
    ensures c in removed && L <= cfg.max ==> c in PoolOf(RebuildPool(cfg, s, L).pools, L)
  {
    HomeOf(cfg, L, s, removed, c);
    if L <= cfg.max { RebuildExact(cfg, L, s); }
  }
}
