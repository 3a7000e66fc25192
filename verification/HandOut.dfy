/** In which order codes go out: the pool of a length is a queue, and a rebuild keeps the order of generation. */
module HandOut {
  import opened Collections
  import opened Generator
  import opened Links
  import opened MemoryPool
  import opened Lifecycle
  import opened Ownership

  /** The code of the link a Create of the length added, if there was a code in the pool. */
  function HandedByStep(L: int, s: Sys, e: Event, t: Sys): seq<string> {
    if e.Create? && e.length == L && PoolOf(s.pools, L) != [] && s.repo.nextID in t.repo.links
    then [t.repo.links[s.repo.nextID].code] else []
  }

  /** The codes a step generates for the length, or recycles into it. */
  function EnteredByStep(cfg: Config, L: int, s: Sys, e: Event): seq<string> {
    match e
    case Generate(length) =>
      if length == L && 0 <= L && L in cfg.steps && 0 <= cfg.batch && Index(s.repo, L) <= cfg.steps[L]
      then BatchCodes(L, cfg.steps[L], Index(s.repo, L), cfg.batch) else []
    case RecycleOne(id) =>
      if id in s.repo.links && s.repo.links[id].length == L && s.repo.links[id].status == Expired
         && s.repo.links[id].expire < s.now - YEAR
      then [s.repo.links[id].code] else []
    case _ => []
  }

  ghost function Handed(cfg: Config, L: int, s: Sys, es: seq<Event>): seq<string> {
    if es == [] then []
    else
      var front := es[..|es| - 1];
      Handed(cfg, L, s, front) + HandedByStep(L, Run(cfg, s, front), es[|es| - 1], Run(cfg, s, es))
  }

  ghost function Entered(cfg: Config, L: int, s: Sys, es: seq<Event>): seq<string> {
    if es == [] then []
    else Entered(cfg, L, s, es[..|es| - 1]) + EnteredByStep(cfg, L, Run(cfg, s, es[..|es| - 1]), es[|es| - 1])
  }

  /** What a step hands out it takes from the front, and what enters goes to the back. */
  lemma {:induction false} StepIsQueue(cfg: Config, L: int, s: Sys, e: Event)
    requires 1 <= L <= cfg.max && e != Rebuild(L)
    ensures var t := Apply(cfg, s, e);
      HandedByStep(L, s, e, t) + PoolOf(t.pools, L) == PoolOf(s.pools, L) + EnteredByStep(cfg, L, s, e)
  {
  }

  /**
    Over every run without a rebuild of the length: the codes handed out by Create, and then those left
    in the pool, are the codes pooled at first, and then those generated and recycled, in that order.
   */
  lemma {:induction false} PoolIsQueue(cfg: Config, L: int, s: Sys, es: seq<Event>)
    requires 1 <= L <= cfg.max && forall e :: e in es ==> e != Rebuild(L)
    ensures Handed(cfg, L, s, es) + PoolOf(Run(cfg, s, es).pools, L)
      == PoolOf(s.pools, L) + Entered(cfg, L, s, es)
  {
    if es == [] {
      assert PoolOf(s.pools, L) + [] == PoolOf(s.pools, L);
    } else {
      var front, e := es[..|es| - 1], es[|es| - 1];
      assert forall f :: f in front ==> f in es;
      assert e in es;
      PoolIsQueue(cfg, L, s, front);
      StepIsQueue(cfg, L, Run(cfg, s, front), e);
      Chained(Handed(cfg, L, s, front), HandedByStep(L, Run(cfg, s, front), e, Run(cfg, s, es)),
              PoolOf(Run(cfg, s, front).pools, L), PoolOf(Run(cfg, s, es).pools, L),
              PoolOf(s.pools, L), Entered(cfg, L, s, front), EnteredByStep(cfg, L, Run(cfg, s, front), e));
    }
  }

  lemma {:induction false} Chained(handed: seq<string>, out: seq<string>, pool: seq<string>, pool': seq<string>,
          first: seq<string>, entered: seq<string>, added: seq<string>)
    requires handed + pool == first + entered && out + pool' == pool + added
    ensures (handed + out) + pool' == first + (entered + added)
  {
    assert (handed + out) + pool' == handed + (out + pool') == handed + (pool + added) == (handed + pool) + added;
    assert (first + entered) + added == first + (entered + added);
  }

  /** A Create gives the new link the first code of the pool and leaves the rest, in order; an empty pool gives "". */
  lemma {:induction false} CreateTakesFirst(cfg: Config, s: Sys, L: int, title: string, link: string, expire: int,
          code: string, rest: seq<string>)
    requires 1 <= L <= cfg.max
    requires PoolOf(s.pools, L) == [code] + rest || (PoolOf(s.pools, L) == [] && code == "" && rest == [])
    ensures var t, n := Apply(cfg, s, Create(L, title, link, expire)), s.repo.nextID;
      && t.repo.links == s.repo.links[n := ShortLink(n, |code|, code, title, link, expire, Active)]
      && t.repo.codeToID == s.repo.codeToID[code := n]
      && PoolOf(t.pools, L) == rest
      && forall k :: k != L ==> PoolOf(t.pools, k) == PoolOf(s.pools, k)
  {
    if PoolOf(s.pools, L) != [] { assert PoolOf(s.pools, L)[0] == code && PoolOf(s.pools, L)[1..] == rest; }
  }

  // ---- after a rebuild ----

  /** The codes not in `used`, in their order. */
  ghost function Unused(codes: seq<string>, used: set<string>): seq<string> {
    if codes == [] then []
    else (if codes[0] in used then [] else [codes[0]]) + Unused(codes[1..], used)
  }

  lemma {:induction false} UnusedPart(codes: seq<string>, used: set<string>)
    ensures forall c :: c in Unused(codes, used) ==> c in codes
  {
    if codes != [] { UnusedPart(codes[1..], used); }
  }

  lemma {:induction false} UnusedAll(codes: seq<string>)
    ensures Unused(codes, {}) == codes
  {
    if codes != [] { UnusedAll(codes[1..]); }
  }

  lemma {:induction false} UnusedAbsent(codes: seq<string>, used: set<string>, code: string)
    requires code !in codes
    ensures Unused(codes, used + {code}) == Unused(codes, used)
  {
    if codes != [] { UnusedAbsent(codes[1..], used, code); }
  }

  lemma {:induction false} UnusedOneLess(codes: seq<string>, used: set<string>, code: string)
    requires Distinct(codes)
    ensures RemoveFirst(Unused(codes, used), code) == Unused(codes, used + {code})
  {
    if codes != [] {
      var head, rest := codes[0], codes[1..];
      assert codes == [head] + rest && head !in rest;
      var kept := Unused(rest, used);
      assert [] + kept == kept && [] + Unused(rest, used + {code}) == Unused(rest, used + {code});
      if head == code {
        UnusedAbsent(rest, used, code);
        UnusedPart(rest, used);
        if head in used {
          RemoveFirstAbsent(kept, code);
        } else {
          assert ([head] + kept)[1..] == kept;
        }
      } else {
        UnusedOneLess(rest, used, code);
        assert ([head] + kept)[1..] == kept;
      }
    }
  }

  lemma {:induction false} RemovedInOrder(codes: seq<string>, used: seq<string>)
    requires Distinct(codes)
    ensures RemoveAll(codes, used) == Unused(codes, Elements(used))
  {
    if used == [] {
      UnusedAll(codes);
      assert Elements(used) == {};
    } else {
      var front, last := used[..|used| - 1], used[|used| - 1];
      RemovedInOrder(codes, front);
      UnusedOneLess(codes, Elements(front), last);
      assert Elements(used) == Elements(front) + {last};
    }
  }

  /** The codes of the length with a live link. */
  ghost function LiveCodes(m: Store, L: int): set<string> {
    set id | id in m.links && m.links[id].length == L && m.links[id].status != Recycled :: m.links[id].code
  }

  lemma {:induction false} UsedAreLive(m: Store, L: int)
    ensures Elements(UsedCodes(m.links, L)) == LiveCodes(m, L)
  {
    var ids := Sorted(WithStatus(m.links, L, {Active, Expired}));
    CodesOfMember(m.links, ids);
    forall c ensures c in Elements(UsedCodes(m.links, L)) <==> c in LiveCodes(m, L) {
      if c in LiveCodes(m, L) {
        var id :| id in m.links && m.links[id].length == L && m.links[id].status != Recycled && m.links[id].code == c;
        assert id in Elements(ids);
      }
      if c in UsedCodes(m.links, L) {
        var id :| id in ids && id in m.links && m.links[id].code == c;
        assert id in Elements(ids);
      }
    }
  }

  /** A rebuild of a generated length leaves the codes of all recorded batches but those of live links, in order. */
  lemma {:induction false} RebuiltInOrder(cfg: Config, L: int, s: Sys)
    requires Generated(cfg, L) && L <= cfg.max && 0 <= Index(s.repo, L) <= Capacity(cfg.batch, cfg.steps[L])
    ensures var t := Apply(cfg, s, Rebuild(L));
      && PoolOf(t.pools, L) == Unused(AllCodes(L, cfg.batch, cfg.steps[L], Index(s.repo, L)), LiveCodes(s.repo, L))
      && t == s.(pools := t.pools) && forall k :: k != L ==> PoolOf(t.pools, k) == PoolOf(s.pools, k)
  {
    var codes, used := AllCodes(L, cfg.batch, cfg.steps[L], Index(s.repo, L)), UsedCodes(s.repo.links, L);
    AllCodesDistinct(L, cfg.batch, cfg.steps[L], Index(s.repo, L));
    RemovedInOrder(codes, used);
    UsedAreLive(s.repo, L);
  }

  /** And of a length without generator it empties the pool. */
  lemma {:induction false} RebuiltEmpty(cfg: Config, L: int, s: Sys)
    requires 1 <= L <= cfg.max && L !in cfg.steps
    ensures PoolOf(Apply(cfg, s, Rebuild(L)).pools, L) == []
  {
    RebuiltWithoutGenerator(cfg, s, L);
  }
}
