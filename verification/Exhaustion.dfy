/** What the batch at index == step does to ownership, and to every rebuild after it. */
module Exhaustion {
  import opened Collections
  import opened Generator
  import opened Links
  import opened MemoryPool
  import opened Rows
  import opened Lifecycle
  import opened Ownership

  /** The codes of batch 0 that the batch at index == step holds again. */
  function Repeated(cfg: Config, L: nat): seq<string>
    requires L in cfg.steps && cfg.batch >= 1
  {
    BatchCodes(L, cfg.steps[L], 0, cfg.batch)[1..]
  }

  function LateBatch(cfg: Config, L: nat): seq<string>
    requires L in cfg.steps && cfg.batch >= 1
  {
    BatchCodes(L, cfg.steps[L], cfg.steps[L], cfg.batch)
  }

  lemma {:induction false} RepeatedAt(L: nat, B: nat, step: int, c: string)
    requires Fits(L, B, step) && step >= 1 && c in BatchCodes(L, step, 0, B)[1..]
    ensures c in BatchCodes(L, step, 0, B) && c in BatchCodes(L, step, step, B)
  {
    var first, late := BatchCodes(L, step, 0, B), BatchCodes(L, step, step, B);
    BatchAtStepRepeats(L, B, step);
    assert c in late[..B - 1];
  }

  lemma {:induction false} RepeatedIsIssued(cfg: Config, L: nat, c: string)
    requires Generated(cfg, L) && cfg.steps[L] >= 1 && c in Repeated(cfg, L)
    ensures c in AllCodes(L, cfg.batch, cfg.steps[L], cfg.steps[L]) && c in LateBatch(cfg, L)
  {
    RepeatedAt(L, cfg.batch, cfg.steps[L], c);
    FirstBatchIn(L, cfg.batch, cfg.steps[L], cfg.steps[L], c);
  }

  lemma {:induction false} FirstBatchIn(L: nat, B: nat, step: int, n: int, c: string)
    requires 1 <= n <= step && c in BatchCodes(L, step, 0, B)
    ensures c in AllCodes(L, B, step, n)
    decreases n
  {
    AllCodesNext(L, B, step, n - 1);
    if n > 1 { FirstBatchIn(L, B, step, n - 1, c); }
  }

  /** Apart from the repeated ones, the late batch holds one code, never issued before. */
  lemma {:induction false} LateMember(L: nat, B: nat, step: int, c: string)
    requires Fits(L, B, step) && step >= 1 && c in BatchCodes(L, step, step, B)
    ensures c in BatchCodes(L, step, 0, B)[1..] || c !in AllCodes(L, B, step, step)
  {
    var late := BatchCodes(L, step, step, B);
    BatchAtStepRepeats(L, B, step);
    assert late == late[..B - 1] + [late[B - 1]];
  }

  lemma {:induction false} LateGenerated(cfg: Config, L: int, s: Sys)
    requires Generated(cfg, L) && Index(s.repo, L) == cfg.steps[L]
    ensures var t := GenerateBatch(cfg, s, L);
      && PoolOf(t.pools, L) == PoolOf(s.pools, L) + LateBatch(cfg, L)
      && t.repo == Saved(s.repo, L, cfg.steps[L] + 1) && t.repo.links == s.repo.links
      && Issued(cfg, t.repo, L) == Issued(cfg, s.repo, L) + LateBatch(cfg, L)
  {
    AllCodesNext(L, cfg.batch, cfg.steps[L], cfg.steps[L]);
  }

  /** With step 0 a batch is that many copies of one code. */
  lemma {:induction false} NoStepRepeats(cfg: Config, L: int)
    requires Generated(cfg, L) && cfg.batch >= 2 && cfg.steps[L] == 0
    ensures !Distinct(LateBatch(cfg, L))
  {
    BatchCodesAt(L, 0, 0, cfg.batch);
    assert BatchCode(L, 0, 0, 0) == BatchCode(L, 0, 0, 1);
  }

  lemma {:induction false} PoolPart(pool: seq<string>, codes: seq<string>)
    ensures Distinct(pool + codes) ==> Distinct(codes) && Apart(pool, codes)
  {
    if Distinct(pool + codes) {
      forall i, j | 0 <= i < j < |codes| ensures codes[i] != codes[j] {
        assert (pool + codes)[|pool| + i] == codes[i] && (pool + codes)[|pool| + j] == codes[j];
      }
      forall i, j | 0 <= i < |pool| && 0 <= j < |codes| ensures pool[i] != codes[j] {
        assert (pool + codes)[i] == pool[i] && (pool + codes)[|pool| + j] == codes[j];
      }
    }
  }

  /** Neither in the pool nor the code of a live link. */
  predicate Free(s: Sys, L: int, c: string) {
    c !in PoolOf(s.pools, L) && !LiveCode(s.repo, c)
  }

  /**
    A batch of two or more generated at index == step leaves ownership exclusive exactly when step is
    at least 1 and every code it repeats is free at that time.
   */
  lemma {:induction false} LateBatchIff(cfg: Config, L: int, s: Sys, removed: set<string>)
    requires ValidConfig(cfg) && Generated(cfg, L) && Owned(cfg, L, s, removed)
    requires cfg.batch >= 2 && Index(s.repo, L) == cfg.steps[L]
    ensures ExclusiveOwnership(L, GenerateBatch(cfg, s, L)) <==>
      cfg.steps[L] >= 1 && forall c :: c in Repeated(cfg, L) ==> Free(s, L, c)
  {
    if cfg.steps[L] == 0 {
      LateGenerated(cfg, L, s);
      NoStepRepeats(cfg, L);
      PoolPart(PoolOf(s.pools, L), LateBatch(cfg, L));
    } else if forall c :: c in Repeated(cfg, L) ==> Free(s, L, c) {
      forall c | c in Repeated(cfg, L) ensures c in removed { FreeIffRemoved(cfg, L, s, removed, c); }
      OwnedIsExclusive(cfg, L, s, removed);
      AllRemoved(cfg, L, s, removed);
    } else {
      var c :| c in Repeated(cfg, L) && !Free(s, L, c);
      FreeIffRemoved(cfg, L, s, removed, c);
      OneHeld(cfg, L, s, removed, c);
    }
  }

  /** An issued code is free exactly when Remove took it away. */
  lemma {:induction false} IssuedFreeIff(cfg: Config, L: int, s: Sys, removed: set<string>, c: string)
    requires Generated(cfg, L) && Owned(cfg, L, s, removed) && |c| == L && c in Issued(cfg, s.repo, L)
    ensures Free(s, L, c) <==> c in removed
  {
    HomeOf(cfg, L, s, removed, c);
  }

  lemma {:induction false} FreeIffRemoved(cfg: Config, L: int, s: Sys, removed: set<string>, c: string)
    requires Generated(cfg, L) && Owned(cfg, L, s, removed)
    requires cfg.steps[L] >= 1 && Index(s.repo, L) == cfg.steps[L] && c in Repeated(cfg, L)
    ensures Free(s, L, c) <==> c in removed
  {
    RepeatedLength(cfg, L, c);
    RepeatedIsIssued(cfg, L, c);
    assert Issued(cfg, s.repo, L) == AllCodes(L, cfg.batch, cfg.steps[L], cfg.steps[L]);
    IssuedFreeIff(cfg, L, s, removed, c);
  }

  lemma {:induction false} RepeatedLength(cfg: Config, L: int, c: string)
    requires Generated(cfg, L) && cfg.steps[L] >= 1 && c in Repeated(cfg, L)
    ensures |c| == L
  {
    RepeatedIsIssued(cfg, L, c);
    var k, i := AllCodesMember(L, cfg.batch, cfg.steps[L], cfg.steps[L], c);
  }

  lemma {:induction false} AllRemoved(cfg: Config, L: int, s: Sys, removed: set<string>)
    requires Generated(cfg, L) && Owned(cfg, L, s, removed) && ExclusiveOwnership(L, s)
    requires Index(s.repo, L) == cfg.steps[L] >= 1 && forall c :: c in Repeated(cfg, L) ==> c in removed
    ensures ExclusiveOwnership(L, GenerateBatch(cfg, s, L))
  {
    var t, late := GenerateBatch(cfg, s, L), LateBatch(cfg, L);
    LateGenerated(cfg, L, s);
    AnyBatchDistinct(L, cfg.batch, cfg.steps[L], cfg.steps[L]);
    LateIsFree(cfg, L, s, removed);
    DistinctAppend(PoolOf(s.pools, L), late);
    forall id | id in LiveIds(s.repo, L) ensures s.repo.links[id].code !in late {
      assert RowTracked(s.repo, id);
    }
    assert LiveIds(t.repo, L) == LiveIds(s.repo, L);
  }

  lemma {:induction false} LateIsFree(cfg: Config, L: int, s: Sys, removed: set<string>)
    requires Generated(cfg, L) && Owned(cfg, L, s, removed)
    requires Index(s.repo, L) == cfg.steps[L] >= 1 && forall c :: c in Repeated(cfg, L) ==> c in removed
    ensures forall c :: c in LateBatch(cfg, L) ==> c !in PoolOf(s.pools, L) && !(|c| == L && LiveCode(s.repo, c))
  {
    forall c | c in LateBatch(cfg, L) ensures c !in PoolOf(s.pools, L) && !(|c| == L && LiveCode(s.repo, c)) {
      LateMember(L, cfg.batch, cfg.steps[L], c);
      HomeOf(cfg, L, s, removed, c);
    }
  }

  lemma {:induction false} SharedIsNotExclusive(L: int, s: Sys, id: int)
    requires id in s.repo.links && s.repo.links[id].length == L && Live(s.repo.links[id])
    requires s.repo.links[id].code in PoolOf(s.pools, L)
    ensures !ExclusiveOwnership(L, s)
  {
    assert id in LiveIds(s.repo, L);
  }

  /** A repeated code that is pooled gets pooled twice; one that is live gets pooled as well. */
  lemma {:induction false} OneHeld(cfg: Config, L: int, s: Sys, removed: set<string>, c: string)
    requires Generated(cfg, L) && Owned(cfg, L, s, removed)
    requires Index(s.repo, L) == cfg.steps[L] >= 1 && c in Repeated(cfg, L) && c !in removed
    ensures !ExclusiveOwnership(L, GenerateBatch(cfg, s, L))
  {
    LateGenerated(cfg, L, s);
    RepeatedIsIssued(cfg, L, c);
    HomeOf(cfg, L, s, removed, c);
    PoolPart(PoolOf(s.pools, L), LateBatch(cfg, L));
    if c !in PoolOf(s.pools, L) {
      SharedIsNotExclusive(L, GenerateBatch(cfg, s, L), s.repo.codeToID[c]);
    }
  }

  function Generates(L: int, n: nat): seq<Event> {
    if n == 0 then [] else Generates(L, n - 1) + [Generate(L)]
  }

  lemma {:induction false} GeneratesInduction(L: int, n: nat, holds: (int, seq<Event>) -> bool)
    requires holds(0, [])
    requires forall i, es :: 0 <= i < n && holds(i, es) ==> holds(i + 1, es + [Generate(L)])
    ensures holds(n, Generates(L, n))
  {
    if n > 0 { GeneratesInduction(L, n - 1, holds); }
  }

  /** `n` batches were generated by a guarded run that removed nothing. */
  ghost predicate Generating(cfg: Config, L: int, s0: Sys, n: int, es: seq<Event>) {
    Index(Run(cfg, s0, es).repo, L) == n && Guarded(cfg, L, s0, es) && RemovedBy(cfg, L, s0, es) == {}
  }

  lemma {:induction false} GenerateNext(cfg: Config, L: int, s0: Sys, n: int, es: seq<Event>)
    requires 1 <= L && L in cfg.steps && 1 <= cfg.batch && 0 <= n < cfg.steps[L]
    ensures Generating(cfg, L, s0, n, es) ==> Generating(cfg, L, s0, n + 1, es + [Generate(L)])
  {
    if Generating(cfg, L, s0, n, es) {
      GenerateCounts(cfg, L, Run(cfg, s0, es));
      RunOne(cfg, s0, es, Generate(L));
      GuardedOne(cfg, L, s0, es, Generate(L));
    }
  }

  /** Generating from an empty system counts the batches, and is guarded up to index == step. */
  lemma {:induction false} GeneratesRun(cfg: Config, L: int, now: int, n: nat)
    requires 1 <= L && L in cfg.steps && 1 <= cfg.batch && n <= cfg.steps[L]
    ensures Generating(cfg, L, Empty(now), n, Generates(L, n))
  {
    forall i, es | 0 <= i < n
      ensures Generating(cfg, L, Empty(now), i, es) ==> Generating(cfg, L, Empty(now), i + 1, es + [Generate(L)])
    {
      GenerateNext(cfg, L, Empty(now), i, es);
    }
    GeneratesInduction(L, n, (i, es) => Generating(cfg, L, Empty(now), i, es));
  }

  lemma {:induction false} GenerateCounts(cfg: Config, L: int, s: Sys)
    requires 1 <= L && L in cfg.steps && 1 <= cfg.batch && 0 <= Index(s.repo, L) < cfg.steps[L]
    ensures Index(Apply(cfg, s, Generate(L)).repo, L) == Index(s.repo, L) + 1
    ensures forall removed ::
      Guard(cfg, L, s, Generate(L), removed) && RemovedAfter(cfg, L, s, Generate(L), removed) == removed
  {
  }

  lemma {:induction false} GuardedOne(cfg: Config, L: int, s: Sys, es: seq<Event>, e: Event)
    ensures Guarded(cfg, L, s, es + [e]) <==>
      Guarded(cfg, L, s, es) && Guard(cfg, L, Run(cfg, s, es), e, RemovedBy(cfg, L, s, es))
    ensures RemovedBy(cfg, L, s, es + [e]) == RemovedAfter(cfg, L, Run(cfg, s, es), e, RemovedBy(cfg, L, s, es))
  {
    assert (es + [e])[..|es|] == es;
  }

  /** So ownership is lost without any outside cause: by generating one batch after the other. */
  lemma {:induction false} GeneratingOnLosesOwnership(cfg: Config, L: int, now: int)
    requires ValidConfig(cfg) && cfg.manual < L <= cfg.max && Usable(cfg, L) && cfg.batch >= 2 && cfg.steps[L] >= 1
    ensures forall n :: 0 <= n <= cfg.steps[L] ==> ExclusiveOwnership(L, Run(cfg, Empty(now), Generates(L, n)))
    ensures !ExclusiveOwnership(L, Run(cfg, Empty(now), Generates(L, cfg.steps[L] + 1)))
  {
    ConfiguredLengthsAreGenerated(cfg, L);
    forall n | 0 <= n <= cfg.steps[L] ensures ExclusiveOwnership(L, Run(cfg, Empty(now), Generates(L, n))) {
      GeneratesRun(cfg, L, now, n);
      OwnershipAndConservation(cfg, L, now, Generates(L, n));
    }
    var step := cfg.steps[L];
    GeneratesRun(cfg, L, now, step);
    OwnedThroughout(cfg, L, now, Generates(L, step));
    var s := Run(cfg, Empty(now), Generates(L, step));
    assert Repeated(cfg, L)[0] in Repeated(cfg, L);
    OneHeld(cfg, L, s, {}, Repeated(cfg, L)[0]);
    RunOne(cfg, Empty(now), Generates(L, step), Generate(L));
    assert Generates(L, step + 1) == Generates(L, step) + [Generate(L)];
  }

  // ---- rebuilding afterwards ----

  lemma {:induction false} RemoveFirstCounts(s: seq<string>, x: string)
    ensures multiset(RemoveFirst(s, x)) == multiset(s) - multiset{x}
  {
    if s != [] {
      assert s == [s[0]] + s[1..];
      if s[0] != x { RemoveFirstCounts(s[1..], x); }
    }
  }

  lemma {:induction false} MinusBoth(a: multiset<string>, b: multiset<string>, x: string)
    ensures a - b - multiset{x} == a - (b + multiset{x})
  {
  }

  lemma {:induction false} RemoveAllCounts(s: seq<string>, xs: seq<string>)
    ensures multiset(RemoveAll(s, xs)) == multiset(s) - multiset(xs)
  {
    if xs != [] {
      var front, last := xs[..|xs| - 1], xs[|xs| - 1];
      RemoveAllCounts(s, front);
      RemoveFirstCounts(RemoveAll(s, front), last);
      assert xs == front + [last];
      MinusBoth(multiset(s), multiset(front), last);
    }
  }

  /** Tracked live rows have different codes, so a code is used at most once. */
  lemma {:induction false} UsedOnce(m: Store, L: int, c: string)
    requires WellFormed(m) && Tracked(m, L)
    ensures multiset(UsedCodes(m.links, L))[c] <= 1
  {
    var ids := Sorted(LiveIds(m, L));
    forall i | 0 <= i < |ids| ensures ids[i] in LiveIds(m, L) { assert ids[i] in Elements(ids); }
    LiveCodesAt(m, L);
    CodesOfOnce(m, L, ids, c);
  }

  lemma {:induction false} CodesOfOnce(m: Store, L: int, ids: seq<int>, c: string)
    requires Ascending(ids) && forall i :: 0 <= i < |ids| ==> ids[i] in LiveIds(m, L)
    requires forall a, b :: a in LiveIds(m, L) && b in LiveIds(m, L) && m.links[a].code == m.links[b].code ==> a == b
    ensures multiset(CodesOf(m.links, ids))[c] <= 1
    ensures multiset(CodesOf(m.links, ids))[c] == 1 ==> exists i :: 0 <= i < |ids| && m.links[ids[i]].code == c
  {
    if ids != [] {
      var front, last := ids[..|ids| - 1], ids[|ids| - 1];
      CodesOfOnce(m, L, front, c);
      assert last in LiveIds(m, L);
      if multiset(CodesOf(m.links, front))[c] == 1 {
        var i :| 0 <= i < |front| && m.links[front[i]].code == c;
        assert ids[i] == front[i];
      }
    }
  }

  /**
    Once the batch at index == step has been generated, no rebuild gives exclusive ownership back:
    removing a live link's code takes out one of its two copies.
   */
  lemma {:induction false} LateRebuildNeverExclusive(cfg: Config, L: int, s: Sys)
    requires Generated(cfg, L) && L <= cfg.max && WellFormed(s.repo) && Tracked(s.repo, L)
    requires cfg.batch >= 2 && cfg.steps[L] >= 1 && Index(s.repo, L) == cfg.steps[L] + 1
    ensures !ExclusiveOwnership(L, RebuildPool(cfg, s, L))
    ensures forall c :: c in Repeated(cfg, L) ==> c in PoolOf(RebuildPool(cfg, s, L).pools, L)
  {
    forall c | c in Repeated(cfg, L)
      ensures c in PoolOf(RebuildPool(cfg, s, L).pools, L) && !ExclusiveOwnership(L, RebuildPool(cfg, s, L))
    {
      LateRebuildKeeps(cfg, L, s, c);
    }
    assert |Repeated(cfg, L)| == cfg.batch - 1;
    assert Repeated(cfg, L)[0] in Repeated(cfg, L);
  }

  lemma {:induction false} LateRebuildKeeps(cfg: Config, L: int, s: Sys, c: string)
    requires Generated(cfg, L) && L <= cfg.max && WellFormed(s.repo) && Tracked(s.repo, L)
    requires cfg.batch >= 2 && cfg.steps[L] >= 1 && Index(s.repo, L) == cfg.steps[L] + 1 && c in Repeated(cfg, L)
    ensures c in PoolOf(RebuildPool(cfg, s, L).pools, L) && !ExclusiveOwnership(L, RebuildPool(cfg, s, L))
  {
    var issued, used := Issued(cfg, s.repo, L), UsedCodes(s.repo.links, L);
    IssuedTwice(cfg, L, c);
    UsedOnce(s.repo, L, c);
    StillPooled(issued, used, c);
    UsedCodesAreLive(s.repo, L);
    if c in used {
      SharedIsNotExclusive(L, RebuildPool(cfg, s, L), s.repo.codeToID[c]);
    }
  }

  /** Of two copies one removal leaves one, and no removal leaves two. */
  lemma {:induction false} StillPooled(issued: seq<string>, used: seq<string>, c: string)
    requires multiset(issued)[c] >= 2 && multiset(used)[c] <= 1
    ensures c in RemoveAll(issued, used)
    ensures c !in used ==> !Distinct(RemoveAll(issued, used))
  {
    RemoveAllCounts(issued, used);
    var pool := RemoveAll(issued, used);
    assert multiset(pool)[c] == multiset(issued)[c] - multiset(used)[c] >= 1;
    if c !in used {
      assert multiset(used)[c] == 0;
      TwiceIsNotDistinct(pool, c);
    }
  }

  lemma {:induction false} IssuedTwice(cfg: Config, L: int, c: string)
    requires Generated(cfg, L) && cfg.steps[L] >= 1 && c in Repeated(cfg, L)
    ensures multiset(Regenerated(cfg, L, cfg.steps[L] + 1))[c] >= 2
  {
    RepeatedIsIssued(cfg, L, c);
    AllCodesNext(L, cfg.batch, cfg.steps[L], cfg.steps[L]);
    var before, late := AllCodes(L, cfg.batch, cfg.steps[L], cfg.steps[L]), LateBatch(cfg, L);
    assert Regenerated(cfg, L, cfg.steps[L] + 1) == before + late;
    assert multiset(before + late) == multiset(before) + multiset(late);
  }

  lemma {:induction false} TwiceIsNotDistinct(s: seq<string>, c: string)
    requires multiset(s)[c] >= 2
    ensures !Distinct(s)
  {
    var i :| 0 <= i < |s| && s[i] == c;
    assert s == s[..i] + [c] + s[i + 1..];
    assert multiset(s) == multiset(s[..i]) + multiset{c} + multiset(s[i + 1..]);
    if c in s[..i] {
      var j :| 0 <= j < i && s[j] == c;
    } else {
      assert c in s[i + 1..];
      var j :| 0 <= j < |s| - i - 1 && s[i + 1..][j] == c;
      assert s[i + 1 + j] == c;
    }
  }
}
