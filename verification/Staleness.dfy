/** How old, or how early, a redirect can be. */
module Staleness {
  import opened Collections
  import opened Links
  import opened MemoryPool
  import opened MemoryCache
  import opened Rows
  import opened Lifecycle
  import opened Agreement
  import opened Flight
  import opened FlightSafety
  import opened HalfWrites
  import opened Redirect

  // ---- cache and rows agree but for the links being written ----

  lemma {:induction false} WorkSoundIff(cfg: Config, w: World, a: Act)
    requires Sound(w)
    ensures Sound(w.(fine := FineStep(cfg, w.fine, a))) <==> WorkGuard(cfg, w, a)
  {
    var f, s := w.fine, View(w.fine);
    StepKeepsIntactIff(cfg, f, a);
    if a.Do? && a.e.Rebuild? {
      PoolsAgreeBut(s, w.writes, View(FineStep(cfg, f, a)));
      StepAgreesButIff(cfg, s, w.writes, a.e);
      PoolsAgreeBut(s, w.writes, Apply(cfg, s, a.e));
    } else {
      StepRefines(cfg, f, a);
      if Coarse(f.tasks, a).Some? { StepAgreesButIff(cfg, s, w.writes, Coarse(f.tasks, a).value); }
    }
  }

  lemma {:induction false} PullSound(w: World, length: int)
    requires Sound(w)
    ensures Sound(OnSys(w, w.fine.sys.(pools := Pulled(w.fine.sys.pools, length))))
  {
    var s' := w.fine.sys.(pools := Pulled(w.fine.sys.pools, length));
    SameRowsIntact(w.fine, s');
    PoolsAgreeBut(View(w.fine), w.writes, View(w.fine.(sys := s')));
  }

  lemma {:induction false} BeginSoundIff(w: World, k: int, x: HalfWrite)
    requires Sound(w) && k !in w.writes && x.started == w.fine.sys.now
    ensures Sound(Begun(w, k, x)) <==> MayBegin(View(w.fine), w.writes, x)
  {
    var s' := CachePut(w.fine.sys, x.code, x.link, x.expire);
    SameRowsIntact(w.fine, s');
    BeginAgreesButIff(View(w.fine), w.writes, k, x);
    assert View(w.fine.(sys := s')) == CachePut(View(w.fine), x.code, x.link, x.expire);
  }

  /** The index of the view is that of the state, and so are the IDs. */
  lemma {:induction false} FoundInView(f: Fine, code: string)
    requires WellFormed(f.sys.repo)
    ensures Found(View(f).repo, code).Some? <==> Found(f.sys.repo, code).Some?
    ensures Found(f.sys.repo, code).Some? ==>
      Found(View(f).repo, code).value.id == Found(f.sys.repo, code).value.id == f.sys.repo.codeToID[code]
  {
  }

  /** The row half of write `k`. */
  function Finished(w: World, k: int): World
    requires k in w.writes
  {
    OnSys(w, w.fine.sys.(repo := RowWritten(w.fine.sys.repo, w.writes[k]))).(writes := w.writes - {k})
  }

  lemma {:induction false} FinishAddSoundIff(cfg: Config, w: World, k: int)
    requires Sound(w) && k in w.writes && w.writes[k].target == None
    ensures Sound(Finished(w, k)) <==> FinishGuard(cfg, w, w.writes[k])
  {
    var x, v := w.writes[k], View(w.fine);
    var row := NewRow(x.code, x.title, x.link, x.expire);
    var s' := w.fine.sys.(repo := RowWritten(w.fine.sys.repo, x));
    InsertIntactIff(w.fine, row, s');
    InsertViewed(w.fine, row);
    assert View(w.fine.(sys := s')) == v.(repo := RowWritten(v.repo, x));
    assert Ahead(v, x);
    FinishTracksIff(v, x);
    if !LiveCode(v.repo, x.code) { FinishAgreesBut(v, w.writes, k); }
  }

  lemma {:induction false} FinishUpdateSoundIff(cfg: Config, w: World, k: int)
    requires Sound(w) && k in w.writes && w.writes[k].target.Some?
    ensures Sound(Finished(w, k)) <==> FinishGuard(cfg, w, w.writes[k])
  {
    var f, x := w.fine, w.writes[k];
    var s' := f.sys.(repo := RowWritten(f.sys.repo, x));
    var whole := UpdateLink(f.sys, x.code, x.title, x.link, x.expire);
    assert Ahead(View(f), x);
    FoundInView(f, x.code);
    assert whole.repo == s'.repo && whole.now == s'.now;
    UpdateIntactIff(f, x.code, x.title, x.link, x.expire);
    SameStoreIntact(f.(sys := whole), f.(sys := s'));
    UpdateViewed(f, x.code, x.title, x.link, x.expire);
    assert View(f.(sys := s')).repo == View(f.(sys := whole)).repo;
    FinishAgreesBut(View(f), w.writes, k);
  }

  lemma {:induction false} SameStoreIntact(f: Fine, g: Fine)
    requires f.tasks == g.tasks && f.sys.repo == g.sys.repo && f.sys.now == g.sys.now
    ensures Intact(f) <==> Intact(g)
  {
    if Intact(f) { SameRowsIntact(f, g.sys); }
    if Intact(g) { SameRowsIntact(g, f.sys); }
  }

  /**
    A step keeps the world sound exactly when its guard holds: of the service, its sweeps, and both
    halves of a write.
   */
  lemma {:induction false} SoundNextIff(cfg: Config, ttl: int, w: World, a: Action)
    requires Sound(w)
    ensures Sound(Next(cfg, ttl, w, a)) <==> SoundGuard(cfg, w, a)
  {
    var s := w.fine.sys;
    match a
    case Work(b) => WorkSoundIff(cfg, w, b);
    case Pull(length) => PullSound(w, length);
    case BeginAdd(k, code, title, link, expire) =>
      if k !in w.writes { BeginSoundIff(w, k, HalfWrite(code, title, link, expire, None, s.now)); }
    case BeginUpdate(k, code, title, link, expire) =>
      if k !in w.writes && Found(s.repo, code).Some? {
        BeginSoundIff(w, k, HalfWrite(code, title, link, expire, Some(s.repo.codeToID[code]), s.now));
      }
    case Finish(k) =>
      if k in w.writes {
        if w.writes[k].target.None? { FinishAddSoundIff(cfg, w, k); } else { FinishUpdateSoundIff(cfg, w, k); }
      }
    case Fetch(h, code) => FetchSound(cfg, w, code);
    case _ =>
  }

  lemma {:induction false} FetchSound(cfg: Config, w: World, code: string)
    requires Sound(w)
    ensures Sound(OnSys(w, Apply(cfg, w.fine.sys, Lookup(code))))
  {
    WorkSoundIff(cfg, w, Do(Lookup(code)));
  }

  lemma {:induction false} SoundThroughout(cfg: Config, ttl: int, delay: int, lag: int, now: int, actions: seq<Action>)
    requires AllAllowed(cfg, ttl, delay, lag, NewWorld(now), actions)
    ensures Sound(Perform(cfg, ttl, NewWorld(now), actions))
  {
    if actions == [] {
      var s := Empty(now);
      assert View(Fine(s, map[])) == s by { assert Viewed(map[], map[]) == map[]; }
      forall c: string ensures AgreesAt(s, c) {}
    } else {
      var front, a := actions[..|actions| - 1], actions[|actions| - 1];
      SoundThroughout(cfg, ttl, delay, lag, now, front);
      SoundNextIff(cfg, ttl, Perform(cfg, ttl, NewWorld(now), front), a);
    }
  }

  // ---- what a request was given, some link had or is about to have ----

  lemma {:induction false} PerformOne(cfg: Config, ttl: int, w: World, actions: seq<Action>, a: Action)
    ensures Perform(cfg, ttl, w, actions + [a]) == Next(cfg, ttl, Perform(cfg, ttl, w, actions), a)
  {
    assert (actions + [a])[..|actions|] == actions;
  }

  lemma {:induction false} ClockGoesOn(cfg: Config, ttl: int, w: World, a: Action)
    ensures Next(cfg, ttl, w, a).fine.sys.now >= w.fine.sys.now
    ensures !a.Work? ==> Next(cfg, ttl, w, a).fine.sys.now == w.fine.sys.now
  {
  }

  lemma {:induction false} HadStays(cfg: Config, ttl: int, lag: int, w: World, actions: seq<Action>, a: Action,
          code: string, url: string, from: int, to: int)
    requires Had(cfg, ttl, lag, w, actions, code, url, from, to)
    ensures Had(cfg, ttl, lag, w, actions + [a], code, url, from, to)
  {
    var k :| 0 <= k <= |actions| && HadAt(cfg, ttl, lag, w, actions[..k], code, url, from, to);
    assert (actions + [a])[..k] == actions[..k];
  }

  lemma {:induction false} HasNow(cfg: Config, ttl: int, lag: int, w: World, actions: seq<Action>, code: string,
          url: string, from: int, to: int)
    requires var s := Perform(cfg, ttl, w, actions).fine.sys; from <= s.now <= to && HasLink(s, code, url, lag)
    ensures Had(cfg, ttl, lag, w, actions, code, url, from, to)
  {
    assert actions[..|actions|] == actions;
    assert HadAt(cfg, ttl, lag, w, actions[..|actions|], code, url, from, to);
  }

  lemma {:induction false} HadWidens(cfg: Config, ttl: int, lag: int, w: World, actions: seq<Action>, code: string,
          url: string, from: int, to: int, from': int, to': int)
    requires Had(cfg, ttl, lag, w, actions, code, url, from, to) && from' <= from && to <= to'
    ensures Had(cfg, ttl, lag, w, actions, code, url, from', to')
  {
    var k :| 0 <= k <= |actions| && HadAt(cfg, ttl, lag, w, actions[..k], code, url, from, to);
    assert HadAt(cfg, ttl, lag, w, actions[..k], code, url, from', to');
  }

  lemma {:induction false} BackedWidens(cfg: Config, ttl: int, lag: int, w: World, actions: seq<Action>, code: string,
          url: string, from: int, to: int, from': int, to': int)
    requires Backed(cfg, ttl, lag, w, actions, code, url, from, to) && from' <= from && to <= to'
    ensures Backed(cfg, ttl, lag, w, actions, code, url, from', to')
  {
    if Had(cfg, ttl, lag, w, actions, code, url, from, to + lag) {
      HadWidens(cfg, ttl, lag, w, actions, code, url, from, to + lag, from', to' + lag);
    } else {
      var v := Perform(cfg, ttl, w, actions);
      var k :| k in v.writes.Keys && Brings(v.writes[k], code, url, to);
      assert Brings(v.writes[k], code, url, to');
    }
  }

  /** An Active row of the view is an Active row. */
  lemma {:induction false} ActiveInView(f: Fine, code: string)
    requires Found(View(f).repo, code).Some? && Found(View(f).repo, code).value.status == Active
    ensures Found(f.sys.repo, code) == Found(View(f).repo, code)
  {
  }

  /** The row half of a write whose link had not expired when it began makes it an Active link. */
  lemma {:induction false} FinishServes(cfg: Config, ttl: int, delay: int, lag: int, w: World, k: int)
    requires Sound(w) && k in w.writes && Allowed(cfg, delay, lag, w, Finish(k))
    requires w.writes[k].started <= w.writes[k].expire
    ensures HasLink(Next(cfg, ttl, w, Finish(k)).fine.sys, w.writes[k].code, w.writes[k].link, lag)
  {
    var x, m := w.writes[k], w.fine.sys.repo;
    var s' := Next(cfg, ttl, w, Finish(k)).fine.sys;
    assert Ahead(View(w.fine), x);
    match x.target
    case None => assert ServedWithin(s', m.nextID, x.code, x.link, lag);
    case Some(id) =>
      ActiveInView(w.fine, x.code);
      FoundInView(w.fine, x.code);
      assert m.codeToID[x.code] == id && m.links[id].code == x.code && m.links[id].id == id;
      assert ServedWithin(s', id, x.code, x.link, lag);
  }

  lemma {:induction false} ComingNext(cfg: Config, ttl: int, delay: int, lag: int, w: World, a: Action, code: string,
          url: string, from: int, to: int)
    requires Sound(w) && Allowed(cfg, delay, lag, w, a) && Coming(w, code, url, from, to)
    ensures var v := Next(cfg, ttl, w, a);
      Coming(v, code, url, from, to) || (from <= v.fine.sys.now <= to + lag && HasLink(v.fine.sys, code, url, lag))
  {
    var v := Next(cfg, ttl, w, a);
    var k :| k in w.writes.Keys && Brings(w.writes[k], code, url, to);
    ClockGoesOn(cfg, ttl, w, a);
    if a == Finish(k) {
      FinishServes(cfg, ttl, delay, lag, w, k);
    } else {
      assert k in v.writes.Keys && v.writes[k] == w.writes[k];
    }
  }

  lemma {:induction false} BackedStays(cfg: Config, ttl: int, delay: int, lag: int, w: World, actions: seq<Action>,
          a: Action, code: string, url: string, from: int, to: int)
    requires Sound(Perform(cfg, ttl, w, actions)) && Allowed(cfg, delay, lag, Perform(cfg, ttl, w, actions), a)
    requires Backed(cfg, ttl, lag, w, actions, code, url, from, to)
    ensures Backed(cfg, ttl, lag, w, actions + [a], code, url, from, to)
  {
    PerformOne(cfg, ttl, w, actions, a);
    if Had(cfg, ttl, lag, w, actions, code, url, from, to + lag) {
      HadStays(cfg, ttl, lag, w, actions, a, code, url, from, to + lag);
    } else {
      ComingNext(cfg, ttl, delay, lag, Perform(cfg, ttl, w, actions), a, code, url, from, to);
      if !Coming(Perform(cfg, ttl, w, actions + [a]), code, url, from, to) {
        HasNow(cfg, ttl, lag, w, actions + [a], code, url, from, to + lag);
      }
    }
  }

  /** A hit in the cache is a link some row has now, or one that is being written. */
  lemma {:induction false} HitIsBacked(cfg: Config, ttl: int, lag: int, w: World, actions: seq<Action>, code: string)
    requires var v := Perform(cfg, ttl, w, actions); Sound(v) && CachedItem(v.fine.sys, code).Some?
    requires 0 <= lag
    ensures var s := Perform(cfg, ttl, w, actions).fine.sys;
      Backed(cfg, ttl, lag, w, actions, code, CachedItem(s, code).value.link, s.now, s.now)
  {
    var v := Perform(cfg, ttl, w, actions);
    var s, item := v.fine.sys, CachedItem(v.fine.sys, code).value;
    if BeingWritten(v.writes, code) {
      var k :| k in v.writes.Keys && v.writes[k].code == code;
      assert Ahead(View(v.fine), v.writes[k]);
      assert Brings(v.writes[k], code, item.link, s.now);
    } else {
      assert AgreesAt(View(v.fine), code);
      ActiveInView(v.fine, code);
      var id := s.repo.codeToID[code];
      assert ServedWithin(s, id, code, item.link, lag);
      HasNow(cfg, ttl, lag, w, actions, code, item.link, s.now, s.now + lag);
    }
  }

  /** What the LRU answers was kept at most `ttl` ago. */
  lemma {:induction false} RememberedIsBacked(cfg: Config, ttl: int, delay: int, lag: int, w: World,
          actions: seq<Action>, code: string, e: Entry, now: int)
    requires EntryBacked(cfg, ttl, delay, lag, w, actions, code, e) && e.at <= now <= e.at + ttl
    ensures PendingBacked(cfg, ttl, delay, lag, w, actions, Pending(code, e.link, now, false))
  {
    BackedWidens(cfg, ttl, lag, w, actions, code, e.link, e.at - delay, e.at, now - ttl - delay, now);
  }

  /** What is kept was fetched at most `delay` ago. */
  lemma {:induction false} KeptIsBacked(cfg: Config, ttl: int, delay: int, lag: int, w: World, actions: seq<Action>,
          p: Pending, now: int)
    requires PendingBacked(cfg, ttl, delay, lag, w, actions, p) && p.fetched && p.started <= now <= p.started + delay
    requires 0 <= ttl && 0 <= delay
    ensures EntryBacked(cfg, ttl, delay, lag, w, actions, p.code, Entry(p.link, now))
    ensures PendingBacked(cfg, ttl, delay, lag, w, actions, p.(fetched := false))
  {
    BackedWidens(cfg, ttl, lag, w, actions, p.code, p.link, p.started, p.started, now - delay, now);
    BackedWidens(cfg, ttl, lag, w, actions, p.code, p.link, p.started, p.started, p.started - ttl - delay, p.started);
  }

  lemma {:induction false} EntryStays(cfg: Config, ttl: int, delay: int, lag: int, w: World, actions: seq<Action>,
          a: Action, code: string, e: Entry)
    requires Sound(Perform(cfg, ttl, w, actions)) && Allowed(cfg, delay, lag, Perform(cfg, ttl, w, actions), a)
    requires EntryBacked(cfg, ttl, delay, lag, w, actions, code, e)
    ensures EntryBacked(cfg, ttl, delay, lag, w, actions + [a], code, e)
  {
    BackedStays(cfg, ttl, delay, lag, w, actions, a, code, e.link, e.at - delay, e.at);
  }

  lemma {:induction false} PendingStays(cfg: Config, ttl: int, delay: int, lag: int, w: World, actions: seq<Action>,
          a: Action, p: Pending)
    requires Sound(Perform(cfg, ttl, w, actions)) && Allowed(cfg, delay, lag, Perform(cfg, ttl, w, actions), a)
    requires PendingBacked(cfg, ttl, delay, lag, w, actions, p)
    ensures PendingBacked(cfg, ttl, delay, lag, w, actions + [a], p)
  {
    BackedStays(cfg, ttl, delay, lag, w, actions, a, p.code, p.link,
                if p.fetched then p.started else p.started - ttl - delay, p.started);
  }

  lemma {:induction false} LRUBackedNext(cfg: Config, ttl: int, delay: int, lag: int, w: World, actions: seq<Action>,
          a: Action, c: string)
    requires 0 <= ttl && 0 <= delay
    requires Sound(Perform(cfg, ttl, w, actions)) && Allowed(cfg, delay, lag, Perform(cfg, ttl, w, actions), a)
    requires AllBacked(cfg, ttl, delay, lag, w, actions) && c in Perform(cfg, ttl, w, actions + [a]).lru
    ensures var v := Perform(cfg, ttl, w, actions + [a]);
      v.lru[c].at <= v.fine.sys.now && EntryBacked(cfg, ttl, delay, lag, w, actions + [a], c, v.lru[c])
  {
    var u, v := Perform(cfg, ttl, w, actions), Perform(cfg, ttl, w, actions + [a]);
    PerformOne(cfg, ttl, w, actions, a);
    ClockGoesOn(cfg, ttl, u, a);
    if !(c in u.lru && v.lru[c] == u.lru[c]) {
      KeptIsBacked(cfg, ttl, delay, lag, w, actions, u.handlers[a.h], u.fine.sys.now);
    }
    EntryStays(cfg, ttl, delay, lag, w, actions, a, c, v.lru[c]);
  }

  lemma {:induction false} PendingBackedNext(cfg: Config, ttl: int, delay: int, lag: int, w: World,
          actions: seq<Action>, a: Action, h: int)
    requires 0 <= ttl && 0 <= delay && 0 <= lag
    requires Sound(Perform(cfg, ttl, w, actions)) && Allowed(cfg, delay, lag, Perform(cfg, ttl, w, actions), a)
    requires AllBacked(cfg, ttl, delay, lag, w, actions) && h in Perform(cfg, ttl, w, actions + [a]).handlers
    ensures var v := Perform(cfg, ttl, w, actions + [a]);
      && v.handlers[h].started <= v.fine.sys.now
      && PendingBacked(cfg, ttl, delay, lag, w, actions + [a], v.handlers[h])
  {
    var u, v := Perform(cfg, ttl, w, actions), Perform(cfg, ttl, w, actions + [a]);
    PerformOne(cfg, ttl, w, actions, a);
    ClockGoesOn(cfg, ttl, u, a);
    if !(h in u.handlers && v.handlers[h] == u.handlers[h]) {
      if a.Hit? {
        RememberedIsBacked(cfg, ttl, delay, lag, w, actions, a.code, u.lru[a.code], u.fine.sys.now);
      } else if a.Fetch? {
        HitIsBacked(cfg, ttl, lag, w, actions, a.code);
      } else {
        KeptIsBacked(cfg, ttl, delay, lag, w, actions, u.handlers[a.h], u.fine.sys.now);
      }
    }
    PendingStays(cfg, ttl, delay, lag, w, actions, a, v.handlers[h]);
  }

  lemma {:induction false} BackedThroughout(cfg: Config, ttl: int, delay: int, lag: int, now: int, actions: seq<Action>)
    requires 0 <= ttl && 0 <= delay && 0 <= lag && AllAllowed(cfg, ttl, delay, lag, NewWorld(now), actions)
    ensures AllBacked(cfg, ttl, delay, lag, NewWorld(now), actions)
  {
    var w := NewWorld(now);
    if actions != [] {
      var front, a := actions[..|actions| - 1], actions[|actions| - 1];
      BackedThroughout(cfg, ttl, delay, lag, now, front);
      SoundThroughout(cfg, ttl, delay, lag, now, front);
      assert actions == front + [a];
      var v := Perform(cfg, ttl, w, actions);
      forall c | c in v.lru
        ensures v.lru[c].at <= v.fine.sys.now && EntryBacked(cfg, ttl, delay, lag, w, actions, c, v.lru[c])
      {
        LRUBackedNext(cfg, ttl, delay, lag, w, front, a, c);
      }
      forall h | h in v.handlers
        ensures v.handlers[h].started <= v.fine.sys.now
          && PendingBacked(cfg, ttl, delay, lag, w, actions, v.handlers[h])
      {
        PendingBackedNext(cfg, ttl, delay, lag, w, front, a, h);
      }
    }
  }

  /** What is backed after a part of a run is backed after all of it. */
  lemma {:induction false} BackedToTheEnd(cfg: Config, ttl: int, delay: int, lag: int, now: int, actions: seq<Action>,
          n: nat, code: string, url: string, from: int, to: int)
    requires AllAllowed(cfg, ttl, delay, lag, NewWorld(now), actions) && n <= |actions|
    requires Backed(cfg, ttl, lag, NewWorld(now), actions[..n], code, url, from, to)
    ensures Backed(cfg, ttl, lag, NewWorld(now), actions, code, url, from, to)
  {
    if n == |actions| {
      assert actions[..n] == actions;
    } else {
      var front, a := actions[..|actions| - 1], actions[|actions| - 1];
      assert front[..n] == actions[..n] && actions == front + [a];
      BackedToTheEnd(cfg, ttl, delay, lag, now, front, n, code, url, from, to);
      SoundThroughout(cfg, ttl, delay, lag, now, front);
      BackedStays(cfg, ttl, delay, lag, NewWorld(now), front, a, code, url, from, to);
    }
  }

  lemma {:induction false} AllowedFront(cfg: Config, ttl: int, delay: int, lag: int, w: World, actions: seq<Action>,
          n: nat)
    requires AllAllowed(cfg, ttl, delay, lag, w, actions) && n <= |actions|
    ensures AllAllowed(cfg, ttl, delay, lag, w, actions[..n])
  {
    if n == |actions| {
      assert actions[..n] == actions;
    } else {
      var front := actions[..|actions| - 1];
      assert front[..n] == actions[..n];
      AllowedFront(cfg, ttl, delay, lag, w, front, n);
    }
  }

  /**
    In a run whose writes are all finished, a redirect at time t goes to a URL that an Active link
    with that code had at some time between t - ttl - 2 * delay and t + lag, where `delay` bounds one
    request and `lag` the time between the two halves of a write. With instantaneous requests and
    writes that is between t - ttl and t, by a link that had not expired.
   */
  lemma {:induction false} StalenessBound(cfg: Config, ttl: int, delay: int, lag: int, now: int, actions: seq<Action>,
          n: nat, h: int)
    requires 0 <= ttl && 0 <= delay && 0 <= lag && n <= |actions|
    requires AllAllowed(cfg, ttl, delay, lag, NewWorld(now), actions)
    requires Perform(cfg, ttl, NewWorld(now), actions).writes == map[]
    requires var w := Perform(cfg, ttl, NewWorld(now), actions[..n]);
      h in w.handlers && Allowed(cfg, delay, lag, w, Redirect(h))
    ensures var w := Perform(cfg, ttl, NewWorld(now), actions[..n]);
      Had(cfg, ttl, lag, NewWorld(now), actions, w.handlers[h].code, w.handlers[h].link,
          w.fine.sys.now - ttl - 2 * delay, w.fine.sys.now + lag)
  {
    var w0, front := NewWorld(now), actions[..n];
    var w := Perform(cfg, ttl, w0, front);
    var p, t := w.handlers[h], w.fine.sys.now;
    AllowedFront(cfg, ttl, delay, lag, w0, actions, n);
    BackedThroughout(cfg, ttl, delay, lag, now, front);
    assert PendingBacked(cfg, ttl, delay, lag, w0, front, p);
    BackedWidens(cfg, ttl, lag, w0, front, p.code, p.link, if p.fetched then p.started else p.started - ttl - delay,
                 p.started, t - ttl - 2 * delay, t);
    BackedToTheEnd(cfg, ttl, delay, lag, now, actions, n, p.code, p.link, t - ttl - 2 * delay, t);
  }

  // ---- what happens otherwise ----

  /** A request between the halves of an Add redirects to a URL that no link has yet. */
  lemma {:induction false} RequestBetweenHalves(cfg: Config, ttl: int, w: World, code: string, title: string,
          link: string, expire: int)
    requires Sound(w) && w.writes == map[] && w.handlers == map[] && expire >= w.fine.sys.now && link != ""
    requires forall id :: id in w.fine.sys.repo.links ==> w.fine.sys.repo.links[id].code != code
    ensures var v := Next(cfg, ttl, Next(cfg, ttl, w, BeginAdd(0, code, title, link, expire)), Fetch(0, code));
      && 0 in v.handlers && v.handlers[0].link == link
      && forall url, lag :: !HasLink(v.fine.sys, code, url, lag)
  {
  }

  lemma {:induction false} RowRewritten(m: Store, x: HalfWrite)
    requires WellFormed(m) && Found(m, x.code).Some? && x.target == Some(m.codeToID[x.code])
    ensures var row := Found(m, x.code).value.(link := x.link, title := x.title, expire := x.expire);
      && RowWritten(m, x) == Replaced(m, row) && WellFormed(RowWritten(m, x))
      && Found(RowWritten(m, x), x.code) == Some(row) && RowWritten(m, x).codeToID == m.codeToID
  {
    assert m.links[m.codeToID[x.code]].id == m.codeToID[x.code];
    UpdatedRow(m, x.code, x.title, x.link, x.expire);
  }

  /** Two Updates of one link, the second begun and finished between the halves of the first. */
  ghost function Crossed(cfg: Config, ttl: int, w: World, code: string, x: HalfWrite, y: HalfWrite): World {
    Next(cfg, ttl, Next(cfg, ttl, BothBegun(cfg, ttl, w, code, x, y), Finish(1)), Finish(0))
  }

  ghost function BothBegun(cfg: Config, ttl: int, w: World, code: string, x: HalfWrite, y: HalfWrite): World {
    Next(cfg, ttl, Next(cfg, ttl, w, BeginUpdate(0, code, x.title, x.link, x.expire)),
         BeginUpdate(1, code, y.title, y.link, y.expire))
  }

  /**
    Crossed updates of an Active link leave cache and row in agreement, then or later, exactly when they
    set the same link and expiry, or both expiries have passed; of any other link, when the expiry the
    second set has passed.
   */
  lemma {:induction false} CrossedUpdatesIff(cfg: Config, ttl: int, w: World, code: string, x: HalfWrite, y: HalfWrite,
          later: int)
    requires WellFormed(w.fine.sys.repo) && w.writes == map[] && w.fine.sys.now <= later
    requires Found(w.fine.sys.repo, code).Some?
    ensures var v := Next(cfg, ttl, Crossed(cfg, ttl, w, code, x, y), Work(Do(Tick(later))));
      var active := Found(w.fine.sys.repo, code).value.status == Active;
      && v.writes == map[] && v.fine.sys.now == later
      && (AgreesAt(v.fine.sys, code) <==>
            if active then (x.link == y.link && x.expire == y.expire) || (x.expire < later && y.expire < later)
            else y.expire < later)
      && (active && later <= x.expire && later <= y.expire ==>
            && CachedItem(v.fine.sys, code) == Some(CacheItem(y.link, y.expire))
            && ActiveItem(v.fine.sys, code) == Some(CacheItem(x.link, x.expire)))
  {
    CrossedEnds(cfg, ttl, w, code, x, y, later);
    Ticked(cfg, ttl, Crossed(cfg, ttl, w, code, x, y), later);
  }

  lemma {:induction false} Ticked(cfg: Config, ttl: int, w: World, later: int)
    requires w.fine.sys.now <= later
    ensures Next(cfg, ttl, w, Work(Do(Tick(later)))) == OnSys(w, w.fine.sys.(now := later))
  {
  }

  /** The cache has the second link and the row the first. */
  lemma {:induction false} CrossedEnds(cfg: Config, ttl: int, w: World, code: string, x: HalfWrite, y: HalfWrite,
          later: int)
    requires WellFormed(w.fine.sys.repo) && w.writes == map[] && w.fine.sys.now <= later
    requires Found(w.fine.sys.repo, code).Some?
    ensures var v, row := Crossed(cfg, ttl, w, code, x, y), Found(w.fine.sys.repo, code).value;
      && v.writes == map[] && v.fine.sys.now == w.fine.sys.now
      && Found(v.fine.sys.repo, code) == Some(row.(link := x.link, title := x.title, expire := x.expire))
      && Answer(v.fine.sys.cache, |code|, code, later)
           == if later <= y.expire then Some(CacheItem(y.link, y.expire)) else None
  {
    var s, id := w.fine.sys, w.fine.sys.repo.codeToID[code];
    var x' := x.(code := code, target := Some(id), started := s.now);
    var y' := y.(code := code, target := Some(id), started := s.now);
    WritesBegun(cfg, ttl, w, code, x, y);
    RowRewritten(s.repo, y');
    RowRewritten(RowWritten(s.repo, y'), x');
    FinishBoth(cfg, ttl, BothBegun(cfg, ttl, w, code, x, y));
  }

  lemma {:induction false} WritesBegun(cfg: Config, ttl: int, w: World, code: string, x: HalfWrite, y: HalfWrite)
    requires w.writes == map[] && Found(w.fine.sys.repo, code).Some?
    ensures var begun := BothBegun(cfg, ttl, w, code, x, y);
      var id, now := w.fine.sys.repo.codeToID[code], w.fine.sys.now;
      && begun.writes == map[0 := x.(code := code, target := Some(id), started := now),
                             1 := y.(code := code, target := Some(id), started := now)]
      && begun.fine.sys.repo == w.fine.sys.repo && begun.fine.sys.now == now
      && forall later :: now <= later ==>
           Answer(begun.fine.sys.cache, |code|, code, later)
             == if later <= y.expire then Some(CacheItem(y.link, y.expire)) else None
  {
  }

  lemma {:induction false} FinishBoth(cfg: Config, ttl: int, w: World)
    requires w.writes.Keys == {0, 1}
    ensures Next(cfg, ttl, Next(cfg, ttl, w, Finish(1)), Finish(0)) ==
      OnSys(w, w.fine.sys.(repo := RowWritten(RowWritten(w.fine.sys.repo, w.writes[1]), w.writes[0]))).(writes := map[])
  {
    assert w.writes - {1} - {0} == map[];
  }

  lemma {:induction false} PerformTwo(cfg: Config, ttl: int, w: World, a: Action, b: Action)
    ensures Perform(cfg, ttl, w, [a, b]) == Next(cfg, ttl, Next(cfg, ttl, w, a), b)
  {
    PerformOne(cfg, ttl, w, [], a);
    PerformOne(cfg, ttl, w, [a], b);
    assert [] + [a] == [a] && [a] + [b] == [a, b];
  }

  lemma {:induction false} PerformThree(cfg: Config, ttl: int, w: World, a: Action, b: Action, c: Action)
    ensures Perform(cfg, ttl, w, [a, b, c]) == Next(cfg, ttl, Next(cfg, ttl, Next(cfg, ttl, w, a), b), c)
  {
    PerformTwo(cfg, ttl, w, a, b);
    PerformOne(cfg, ttl, w, [a, b], c);
    assert [a, b] + [c] == [a, b, c];
  }

  /** A request that missed the LRU and hit the cache has kept the link. */
  lemma {:induction false} Kept(cfg: Config, ttl: int, w: World, code: string)
    requires w.handlers == map[] && CachedItem(w.fine.sys, code).Some? && CachedItem(w.fine.sys, code).value.link != ""
    ensures Perform(cfg, ttl, w, [Fetch(0, code), Keep(0), Redirect(0)]) ==
      OnSys(w, Apply(cfg, w.fine.sys, Lookup(code)))
        .(lru := w.lru[code := Entry(CachedItem(w.fine.sys, code).value.link, w.fine.sys.now)])
  {
    PerformThree(cfg, ttl, w, Fetch(0, code), Keep(0), Redirect(0));
  }

  /** After a Remove no link has the code, though the LRU has not changed. */
  lemma {:induction false} RemovedFromRows(cfg: Config, ttl: int, w: World, code: string, evicted: set<string>,
          later: int)
    requires Consistent(w.fine.sys) && w.fine.sys.now <= later
    ensures var gone := Perform(cfg, ttl, w, [Work(Do(Remove(code))), Evict(evicted), Work(Do(Tick(later)))]);
      && gone.lru == w.lru - evicted && gone.handlers == w.handlers && gone.fine.sys.now == later
      && forall id :: id in gone.fine.sys.repo.links && gone.fine.sys.repo.links[id].code == code ==>
           gone.fine.sys.repo.links[id].status == Recycled
  {
    PerformThree(cfg, ttl, w, Work(Do(Remove(code))), Evict(evicted), Work(Do(Tick(later))));
    RemoveLeavesRecycled(w.fine.sys, code);
  }

  lemma {:induction false} RemoveLeavesRecycled(s: Sys, code: string)
    requires Consistent(s)
    ensures forall id :: id in Deleted(s.repo, code).links && s.repo.links[id].code == code ==>
      s.repo.links[id].status == Recycled
  {
    forall id | id in Deleted(s.repo, code).links && s.repo.links[id].code == code
      ensures s.repo.links[id].status == Recycled
    {
      assert RowTracked(s.repo, id);
    }
  }

  /** What the LRU keeps is not taken back: after a Remove the code still redirects for exactly `ttl`. */
  lemma {:induction false} RemovedLinkRedirectsForTtl(cfg: Config, ttl: int, w: World, code: string,
          evicted: set<string>, later: int)
    requires Consistent(w.fine.sys) && w.handlers == map[] && code !in evicted && w.fine.sys.now <= later
    requires CachedItem(w.fine.sys, code).Some? && CachedItem(w.fine.sys, code).value.link != ""
    ensures var kept := Perform(cfg, ttl, w, [Fetch(0, code), Keep(0), Redirect(0)]);
      var gone := Perform(cfg, ttl, kept, [Work(Do(Remove(code))), Evict(evicted), Work(Do(Tick(later)))]);
      && (forall url, lag :: !HasLink(gone.fine.sys, code, url, lag))
      && (1 in Next(cfg, ttl, gone, Hit(1, code)).handlers <==> later <= w.fine.sys.now + ttl)
  {
    var kept := Perform(cfg, ttl, w, [Fetch(0, code), Keep(0), Redirect(0)]);
    Kept(cfg, ttl, w, code);
    LookupAgrees(w.fine.sys, code);
    RemovedFromRows(cfg, ttl, kept, code, evicted, later);
    var gone := Perform(cfg, ttl, kept, [Work(Do(Remove(code))), Evict(evicted), Work(Do(Tick(later)))]);
    assert gone.lru[code] == Entry(CachedItem(w.fine.sys, code).value.link, w.fine.sys.now);
  }

  // ---- both halves of a write, nothing in between ----

  /** The two halves of an Add with nothing in between are the Add. */
  lemma {:induction false} AloneIsAdd(cfg: Config, ttl: int, w: World, k: int, code: string, title: string,
          link: string, expire: int)
    requires k !in w.writes
    ensures Next(cfg, ttl, Next(cfg, ttl, w, BeginAdd(k, code, title, link, expire)), Finish(k))
      == OnSys(w, Apply(cfg, w.fine.sys, Add(code, title, link, expire)))
  {
    assert w.writes[k := HalfWrite(code, title, link, expire, None, w.fine.sys.now)] - {k} == w.writes;
  }

  /** And those of an Update of a link that is found. */
  lemma {:induction false} AloneIsUpdate(cfg: Config, ttl: int, w: World, k: int, code: string, title: string,
          link: string, expire: int)
    requires k !in w.writes && WellFormed(w.fine.sys.repo) && Found(w.fine.sys.repo, code).Some?
    ensures Next(cfg, ttl, Next(cfg, ttl, w, BeginUpdate(k, code, title, link, expire)), Finish(k))
      == OnSys(w, Apply(cfg, w.fine.sys, Update(code, title, link, expire)))
  {
    var s, id := w.fine.sys, w.fine.sys.repo.codeToID[code];
    var x := HalfWrite(code, title, link, expire, Some(id), s.now);
    assert s.repo.links[id].id == id && s.repo.links[id].code == code;
    assert w.writes[k := x] - {k} == w.writes;
  }

  /** A Remove between the halves of an Update wins: neither row nor cache entry is left. */
  lemma {:induction false} RemoveBetweenHalves(cfg: Config, ttl: int, w: World, code: string, title: string,
          link: string, expire: int)
    requires WellFormed(w.fine.sys.repo) && w.writes == map[] && Found(w.fine.sys.repo, code).Some?
    ensures var begun := Next(cfg, ttl, w, BeginUpdate(0, code, title, link, expire));
      var v := Next(cfg, ttl, Next(cfg, ttl, begun, Work(Do(Remove(code)))), Finish(0));
      && v.writes == map[] && v.fine.sys.repo == Apply(cfg, w.fine.sys, Remove(code)).repo
      && Found(v.fine.sys.repo, code) == None && CachedItem(v.fine.sys, code) == None
  {
    var id, now := w.fine.sys.repo.codeToID[code], w.fine.sys.now;
    assert map[0 := HalfWrite(code, title, link, expire, Some(id), now)] - {0} == map[];
  }
}
