/** Exclusive ownership of codes, and conservation, over every run of the service. */
module Ownership {
  import opened Collections
  import opened Generator
  import opened Links
  import opened MemoryPool
  import opened Rows
  import opened Lifecycle

  /** A length whose codes are generated, within the range of the generator's arithmetic. */
  ghost predicate Generated(cfg: Config, L: int) {
    1 <= L && L in cfg.steps && 1 <= cfg.batch && Fits(L, cfg.batch, cfg.steps[L])
  }

  /** A length of at most ten characters, or a longer one whose step came out non-negative. */
  predicate Usable(cfg: Config, L: int) {
    1 <= L && (L <= 10 || (L in cfg.steps && cfg.steps[L] >= 0))
  }

  lemma {:induction false} ConfiguredLengthsAreGenerated(cfg: Config, L: int)
    requires ValidConfig(cfg) && cfg.manual < L <= cfg.max && Usable(cfg, L)
    ensures Generated(cfg, L)
  {
    StepFits(L, cfg.batch);
  }

  /**
    Every issued code is in exactly one place: in the pool, with a live link, or taken away by
    Remove. No other code of the length is in any of them.
   */
  ghost predicate Home(issued: seq<string>, pool: seq<string>, live: bool, removed: set<string>, c: string) {
    && (c in issued <==> c in pool || live || c in removed)
    && !(c in pool && live) && !(c in pool && c in removed) && !(live && c in removed)
  }

  ghost predicate Accounted(issued: seq<string>, pool: seq<string>, m: Store, L: int, removed: set<string>) {
    forall c: string :: Home(issued, pool, |c| == L && LiveCode(m, c), removed, c)
  }

  /** Pools hold codes of their own length, and no stored index is negative. */
  ghost predicate Typed(s: Sys) {
    && (forall length, c :: c in PoolOf(s.pools, length) ==> |c| == length)
    && (forall length :: Index(s.repo, length) >= 0)
  }

  /** The inductive invariant for one generated length. */
  ghost predicate Owned(cfg: Config, L: int, s: Sys, removed: set<string>)
    requires Generated(cfg, L)
  {
    && WellFormed(s.repo) && Typed(s) && Tracked(s.repo, L)
    && Index(s.repo, L) <= Capacity(cfg.batch, cfg.steps[L])
    && Distinct(PoolOf(s.pools, L))
    && Accounted(Issued(cfg, s.repo, L), PoolOf(s.pools, L), s.repo, L, removed)
  }

  /** The codes of live links deleted by Remove since the last rebuild and not added again. */
  function RemovedAfter(cfg: Config, L: int, s: Sys, e: Event, removed: set<string>): set<string> {
    match e
    case Remove(code) => if |code| == L && LiveCode(s.repo, code) then removed + {code} else removed
    case Add(code, _, _, _) => removed - {code}
    case Rebuild(length) => if length == L then {} else removed
    case _ => removed
  }

  /**
    Manual codes stay out of generated lengths, unless the code was issued and is free; and a
    batch is not generated at index == step, where it would repeat the first one.
   */
  predicate Guard(cfg: Config, L: int, s: Sys, e: Event, removed: set<string>) {
    match e
    case Add(code, _, _, _) => |code| == L ==> code in removed
    case Generate(length) => length == L && L in cfg.steps && cfg.batch != 1 ==> Index(s.repo, L) != cfg.steps[L]
    case _ => true
  }

  // ---- pools stay typed ----

  lemma {:induction false} SameTyped(s: Sys, t: Sys)
    requires Typed(s) && t.pools == s.pools && t.repo.startIndex == s.repo.startIndex
    ensures Typed(t)
  {
    assert forall length :: Index(t.repo, length) == Index(s.repo, length);
  }

  lemma {:induction false} PullTyped(s: Sys, length: int)
    requires Typed(s)
    ensures Typed(s.(pools := Pulled(s.pools, length)))
    ensures PoolOf(s.pools, length) != [] ==> |Oldest(s.pools, length)| == length
  {
    var t := s.(pools := Pulled(s.pools, length));
    forall k, c | c in PoolOf(t.pools, k) ensures |c| == k {
      assert c in PoolOf(s.pools, k);
    }
  }

  lemma {:induction false} AppendTyped(s: Sys, length: int, codes: seq<string>)
    requires Typed(s)
    ensures OfLength(codes, length) ==> Typed(s.(pools := Appended(s.pools, length, codes)))
  {
    var t := s.(pools := Appended(s.pools, length, codes));
    if OfLength(codes, length) {
      forall k, c | c in PoolOf(t.pools, k) ensures |c| == k {
        if k != length || c !in codes { assert c in PoolOf(s.pools, k); }
      }
    }
  }

  lemma {:induction false} SavedTyped(s: Sys, length: int, index: nat)
    requires Typed(s)
    ensures Typed(s.(repo := Saved(s.repo, length, index)))
  {
    var t := s.(repo := Saved(s.repo, length, index));
    assert forall k :: Index(t.repo, k) == if k == length then index else Index(s.repo, k);
  }

  lemma {:induction false} GenerateTyped(cfg: Config, s: Sys, length: int)
    requires ValidConfig(cfg) && Typed(s)
    ensures Typed(GenerateBatch(cfg, s, length))
  {
    var index := Index(s.repo, length);
    if length >= 0 && length in cfg.steps && index <= cfg.steps[length] {
      BatchLength(length, cfg.batch, cfg.steps[length], index);
      AppendTyped(s, length, NextBatch(cfg, s, length));
      SavedTyped(s.(pools := GenerateBatch(cfg, s, length).pools), length, index + 1);
    }
  }

  lemma {:induction false} RebuildTyped(cfg: Config, s: Sys, length: int)
    requires ValidConfig(cfg) && Typed(s)
    ensures Typed(RebuildPool(cfg, s, length))
  {
    if 1 <= length <= cfg.max {
      var issued := Issued(cfg, s.repo, length);
      var used := UsedCodes(s.repo.links, length);
      if length in cfg.steps {
        AllCodesLength(length, cfg.batch, cfg.steps[length], Index(s.repo, length));
      }
      RemoveAllPart(issued, used);
      var t := RebuildPool(cfg, s, length);
      forall k, c | c in PoolOf(t.pools, k) ensures |c| == k {
        if k != length { assert c in PoolOf(s.pools, k); }
      }
    }
  }

  // ---- one lemma per kind of step ----

  lemma {:induction false} Unmoved(cfg: Config, L: int, s: Sys, t: Sys, removed: set<string>)
    requires Generated(cfg, L) && Owned(cfg, L, s, removed)
    requires WellFormed(t.repo) && Typed(t) && Tracked(t.repo, L)
    requires PoolOf(t.pools, L) == PoolOf(s.pools, L) && Index(t.repo, L) == Index(s.repo, L)
    requires forall c :: |c| == L ==> (LiveCode(t.repo, c) <==> LiveCode(s.repo, c))
    ensures Owned(cfg, L, t, removed)
  {
    var issued, pool := Issued(cfg, s.repo, L), PoolOf(s.pools, L);
    forall c: string ensures Home(issued, pool, |c| == L && LiveCode(t.repo, c), removed, c) {
      assert Home(issued, pool, |c| == L && LiveCode(s.repo, c), removed, c);
    }
  }

  lemma {:induction false} HomeOf(cfg: Config, L: int, s: Sys, removed: set<string>, c: string)
    requires Generated(cfg, L) && Owned(cfg, L, s, removed)
    ensures Home(Issued(cfg, s.repo, L), PoolOf(s.pools, L), |c| == L && LiveCode(s.repo, c), removed, c)
  {
  }

  /** Adding a link keeps ownership of a generated length exactly when its code was issued and is free. */
  lemma {:induction false} AddIff(cfg: Config, L: int, s: Sys, code: string, title: string, link: string, expire: int,
          removed: set<string>)
    requires Generated(cfg, L) && Owned(cfg, L, s, removed)
    ensures Owned(cfg, L, AddLink(s, code, title, link, expire), removed - {code}) <==>
      (|code| == L ==> code in removed)
  {
    var t := AddLink(s, code, title, link, expire);
    SameTyped(s, t);
    InsertedRows(s.repo, NewRow(code, title, link, expire));
    InsertedTrackedIff(s.repo, NewRow(code, title, link, expire), L);
    HomeOf(cfg, L, s, removed, code);
    if |code| != L {
      RemovedHaveLength(cfg, L, s, removed, code);
      assert removed - {code} == removed;
      Unmoved(cfg, L, s, t, removed);
    } else if code in removed {
      forall c: string
        ensures Home(Issued(cfg, s.repo, L), PoolOf(s.pools, L), |c| == L && LiveCode(t.repo, c), removed - {code}, c)
      {
        HomeOf(cfg, L, s, removed, c);
      }
    } else if Owned(cfg, L, t, removed - {code}) {
      HomeOf(cfg, L, t, removed - {code}, code);
    }
  }

  lemma {:induction false} RemovedHaveLength(cfg: Config, L: int, s: Sys, removed: set<string>, c: string)
    requires Generated(cfg, L) && Owned(cfg, L, s, removed)
    ensures c in removed ==> |c| == L
  {
    if c in removed {
      HomeOf(cfg, L, s, removed, c);
      var k, i := AllCodesMember(L, cfg.batch, cfg.steps[L], Index(s.repo, L), c);
    }
  }

  /** A pulled code is in hand: out of the pool, with no link yet. */
  lemma {:induction false} PullKeeps(cfg: Config, L: int, s: Sys, length: int, removed: set<string>)
    requires Generated(cfg, L) && Owned(cfg, L, s, removed)
    ensures var code := Oldest(s.pools, length);
      && (|code| == L ==> length == L && code !in removed)
      && Owned(cfg, L, s.(pools := Pulled(s.pools, length)), if |code| == L then removed + {code} else removed)
  {
    var code, pool, t := Oldest(s.pools, length), PoolOf(s.pools, L), s.(pools := Pulled(s.pools, length));
    PullTyped(s, length);
    HomeOf(cfg, L, s, removed, code);
    if length == L && pool != [] {
      TailDistinct(pool);
      forall c: string
        ensures Home(Issued(cfg, s.repo, L), pool[1..], |c| == L && LiveCode(s.repo, c), removed + {code}, c)
      {
        HomeOf(cfg, L, s, removed, c);
      }
    } else {
      Unmoved(cfg, L, s, t, removed);
    }
  }

  lemma {:induction false} TailDistinct(pool: seq<string>)
    requires Distinct(pool) && pool != []
    ensures Distinct(pool[1..]) && pool[0] !in pool[1..]
    ensures forall c :: c != pool[0] ==> (c in pool[1..] <==> c in pool)
  {
    assert pool == [pool[0]] + pool[1..];
  }

  lemma {:induction false} CreateKeeps(cfg: Config, L: int, s: Sys, length: int, title: string, link: string,
          expire: int, removed: set<string>)
    requires Generated(cfg, L) && Owned(cfg, L, s, removed)
    ensures Owned(cfg, L, CreateLink(cfg, s, length, title, link, expire), removed)
  {
    if 1 <= length <= cfg.max {
      var code, pulled := Oldest(s.pools, length), s.(pools := Pulled(s.pools, length));
      var inHand := if |code| == L then removed + {code} else removed;
      PullKeeps(cfg, L, s, length, removed);
      AddIff(cfg, L, pulled, code, title, link, expire, inHand);
      RemovedHaveLength(cfg, L, s, removed, code);
      assert inHand - {code} == removed;
    }
  }

  lemma {:induction false} UpdateKeeps(cfg: Config, L: int, s: Sys, code: string, title: string, link: string,
          expire: int, removed: set<string>)
    requires Generated(cfg, L) && Owned(cfg, L, s, removed)
    ensures Owned(cfg, L, UpdateLink(s, code, title, link, expire), removed)
  {
    if Found(s.repo, code).Some? {
      var t := UpdateLink(s, code, title, link, expire);
      UpdatedRow(s.repo, code, title, link, expire);
      SameTyped(s, t);
      Unmoved(cfg, L, s, t, removed);
    }
  }

  lemma {:induction false} RemoveKeeps(cfg: Config, L: int, s: Sys, code: string, removed: set<string>)
    requires Generated(cfg, L) && Owned(cfg, L, s, removed)
    ensures Owned(cfg, L, RemoveLink(s, code), RemovedAfter(cfg, L, s, Remove(code), removed))
  {
    var t, after := RemoveLink(s, code), RemovedAfter(cfg, L, s, Remove(code), removed);
    DeletedRows(s.repo, code, L);
    SameTyped(s, t);
    var issued, pool := Issued(cfg, s.repo, L), PoolOf(s.pools, L);
    forall c: string ensures Home(issued, pool, |c| == L && LiveCode(t.repo, c), after, c) {
      HomeOf(cfg, L, s, removed, c);
    }
  }

  lemma {:induction false} ExpireKeeps(cfg: Config, L: int, s: Sys, id: int, removed: set<string>)
    requires Generated(cfg, L) && Owned(cfg, L, s, removed)
    ensures Owned(cfg, L, ExpireLink(s, id), removed)
  {
    if MayExpire(s, id) {
      MarkedRow(s.repo, id, Expired, L);
      SameTyped(s, ExpireLink(s, id));
      Unmoved(cfg, L, s, ExpireLink(s, id), removed);
    }
  }

  lemma {:induction false} RecycleKeeps(cfg: Config, L: int, s: Sys, id: int, removed: set<string>)
    requires Generated(cfg, L) && Owned(cfg, L, s, removed)
    ensures Owned(cfg, L, RecycleLink(s, id), removed)
  {
    if MayRecycle(s, id) {
      var t, row := RecycleLink(s, id), s.repo.links[id];
      MarkedRow(s.repo, id, Recycled, L);
      AppendTyped(s, row.length, [row.code]);
      SameTyped(s.(pools := Appended(s.pools, row.length, [row.code])), t);
      if row.length == L {
        HomeOf(cfg, L, s, removed, row.code);
        DistinctAppend(PoolOf(s.pools, L), [row.code]);
        var issued, pool := Issued(cfg, s.repo, L), PoolOf(s.pools, L);
        forall c: string ensures Home(issued, pool + [row.code], |c| == L && LiveCode(t.repo, c), removed, c) {
          HomeOf(cfg, L, s, removed, c);
        }
      } else {
        Unmoved(cfg, L, s, t, removed);
      }
    }
  }

  /**
    Below index == step, or with one code a batch, a batch brings only new codes. At it, the index
    passes the capacity up to which the invariant holds.
   */
  lemma {:induction false} GenerateIff(cfg: Config, L: int, s: Sys, length: int, removed: set<string>)
    requires ValidConfig(cfg) && Generated(cfg, L) && Owned(cfg, L, s, removed)
    ensures Owned(cfg, L, GenerateBatch(cfg, s, length), removed) <==> Guard(cfg, L, s, Generate(length), removed)
  {
    if length != L {
      GenerateElsewhere(cfg, L, s, length, removed);
    } else if Index(s.repo, L) < Capacity(cfg.batch, cfg.steps[L]) {
      GenerateKeeps(cfg, L, s, removed);
    } else {
      GenerateTooLate(cfg, L, s, removed);
    }
  }

  lemma {:induction false} GenerateElsewhere(cfg: Config, L: int, s: Sys, length: int, removed: set<string>)
    requires ValidConfig(cfg) && Generated(cfg, L) && Owned(cfg, L, s, removed) && length != L
    ensures Owned(cfg, L, GenerateBatch(cfg, s, length), removed)
  {
    var t := GenerateBatch(cfg, s, length);
    GenerateTyped(cfg, s, length);
    assert Index(t.repo, L) == Index(s.repo, L);
    Unmoved(cfg, L, s, t, removed);
  }

  lemma {:induction false} GenerateTooLate(cfg: Config, L: int, s: Sys, removed: set<string>)
    requires Generated(cfg, L) && Owned(cfg, L, s, removed)
    requires Index(s.repo, L) == Capacity(cfg.batch, cfg.steps[L])
    ensures var t := GenerateBatch(cfg, s, L);
      if cfg.batch == 1 then t == s else Index(t.repo, L) > Capacity(cfg.batch, cfg.steps[L])
  {
  }

  lemma {:induction false} GenerateKeeps(cfg: Config, L: int, s: Sys, removed: set<string>)
    requires ValidConfig(cfg) && Generated(cfg, L) && Owned(cfg, L, s, removed)
    requires Index(s.repo, L) < Capacity(cfg.batch, cfg.steps[L])
    ensures Owned(cfg, L, GenerateBatch(cfg, s, L), removed)
  {
    var t, codes := GenerateBatch(cfg, s, L), NextBatch(cfg, s, L);
    var issued, pool := Issued(cfg, s.repo, L), PoolOf(s.pools, L);
    GenerateTyped(cfg, s, L);
    GenerateMoves(cfg, L, s);
    NextIsFresh(cfg, L, s);
    Joined(issued, pool, codes, s.repo, L, removed);
    SavedRows(s.repo, t.repo, L, issued + codes, pool + codes, removed);
  }

  function NextBatch(cfg: Config, s: Sys, L: int): seq<string>
    requires L in cfg.steps && L >= 0 && cfg.batch >= 0
  {
    BatchCodes(L, cfg.steps[L], Index(s.repo, L), cfg.batch)
  }

  lemma {:induction false} GenerateMoves(cfg: Config, L: int, s: Sys)
    requires Generated(cfg, L) && Typed(s) && Index(s.repo, L) < Capacity(cfg.batch, cfg.steps[L])
    ensures var t, codes := GenerateBatch(cfg, s, L), NextBatch(cfg, s, L);
      && PoolOf(t.pools, L) == PoolOf(s.pools, L) + codes
      && Issued(cfg, t.repo, L) == Issued(cfg, s.repo, L) + codes
      && t.repo == Saved(s.repo, L, Index(s.repo, L) + 1) && Index(t.repo, L) == Index(s.repo, L) + 1
  {
    IssuedNext(cfg, L, Index(s.repo, L));
  }

  lemma {:induction false} IssuedNext(cfg: Config, L: int, n: int)
    requires Generated(cfg, L) && 0 <= n <= cfg.steps[L]
    ensures Regenerated(cfg, L, n + 1) == Regenerated(cfg, L, n) + BatchCodes(L, cfg.steps[L], n, cfg.batch)
  {
    AllCodesNext(L, cfg.batch, cfg.steps[L], n);
  }

  lemma {:induction false} NextIsFresh(cfg: Config, L: int, s: Sys)
    requires Generated(cfg, L) && Typed(s) && Index(s.repo, L) < Capacity(cfg.batch, cfg.steps[L])
    ensures Distinct(NextBatch(cfg, s, L)) && Apart(Issued(cfg, s.repo, L), NextBatch(cfg, s, L))
  {
    FreshBatch(L, cfg.batch, cfg.steps[L], Index(s.repo, L));
    BatchDistinct(L, cfg.batch, cfg.steps[L], Index(s.repo, L));
  }

  /** Nothing but the stored index differs between two repositories. */
  lemma {:induction false} SavedRows(m: Store, n: Store, L: int, issued: seq<string>, pool: seq<string>,
          removed: set<string>)
    requires n == m.(startIndex := n.startIndex)
    requires WellFormed(m) && Tracked(m, L) && Accounted(issued, pool, m, L, removed)
    ensures WellFormed(n) && Tracked(n, L) && Accounted(issued, pool, n, L, removed)
  {
    forall id | id in n.links && n.links[id].length == L ensures RowTracked(n, id) {
      assert RowTracked(m, id);
    }
    forall c: string ensures Home(issued, pool, |c| == L && LiveCode(n, c), removed, c) {
      assert Home(issued, pool, |c| == L && LiveCode(m, c), removed, c);
    }
  }

  lemma {:induction false} Joined(issued: seq<string>, pool: seq<string>, codes: seq<string>, m: Store, L: int,
          removed: set<string>)
    requires Accounted(issued, pool, m, L, removed) && Distinct(pool)
    requires Distinct(codes) && Apart(issued, codes)
    ensures Accounted(issued + codes, pool + codes, m, L, removed) && Distinct(pool + codes)
  {
    forall c: string ensures Home(issued + codes, pool + codes, |c| == L && LiveCode(m, c), removed, c) {
      assert Home(issued, pool, |c| == L && LiveCode(m, c), removed, c);
    }
    forall c | c in pool ensures c !in codes {
      assert Home(issued, pool, |c| == L && LiveCode(m, c), removed, c);
    }
    DistinctAppend(pool, codes);
  }

  // ---- rebuilding a pool ----

  ghost function LiveIds(m: Store, L: int): set<int> {
    WithStatus(m.links, L, {Active, Expired})
  }

  lemma {:induction false} CodesOfMember(links: map<int, ShortLink>, ids: seq<int>)
    ensures forall c :: c in CodesOf(links, ids) <==> exists id :: id in ids && id in links && links[id].code == c
  {
    if ids != [] {
      var front, last := ids[..|ids| - 1], ids[|ids| - 1];
      CodesOfMember(links, front);
      assert forall id :: id in ids <==> id in front || id == last;
    }
  }

  lemma {:induction false} UsedCodesAreLive(m: Store, L: int)
    requires WellFormed(m) && Tracked(m, L)
    ensures forall c :: c in UsedCodes(m.links, L) <==> |c| == L && LiveCode(m, c)
  {
    var ids := Sorted(LiveIds(m, L));
    CodesOfMember(m.links, ids);
    forall c ensures c in UsedCodes(m.links, L) <==> |c| == L && LiveCode(m, c) {
      if c in UsedCodes(m.links, L) {
        var id :| id in ids && id in m.links && m.links[id].code == c;
        assert id in Elements(ids);
        assert RowTracked(m, id);
      }
      if |c| == L && LiveCode(m, c) {
        var id := m.codeToID[c];
        assert id in LiveIds(m, L);
        assert id in Elements(ids);
      }
    }
  }

  /** A rebuilt pool holds the issued codes of no live link, each once, whatever it held before. */
  lemma {:induction false} RebuildExact(cfg: Config, L: int, s: Sys)
    requires Generated(cfg, L) && L <= cfg.max && WellFormed(s.repo) && Tracked(s.repo, L)
    requires 0 <= Index(s.repo, L) <= Capacity(cfg.batch, cfg.steps[L])
    ensures var t := RebuildPool(cfg, s, L);
      && t == s.(pools := s.pools[L := PoolOf(t.pools, L)])
      && Distinct(PoolOf(t.pools, L))
      && (forall c :: c in PoolOf(t.pools, L) <==> c in Issued(cfg, s.repo, L) && !(|c| == L && LiveCode(s.repo, c)))
      && RebuildPool(cfg, t, L) == t
  {
    AllCodesDistinct(L, cfg.batch, cfg.steps[L], Index(s.repo, L));
    RemoveAllDistinct(Issued(cfg, s.repo, L), UsedCodes(s.repo.links, L));
    UsedCodesAreLive(s.repo, L);
  }

  /** What a rebuild needs: everything but the lost pool is sound, and the live codes were issued. */
  ghost predicate Recoverable(cfg: Config, L: int, s: Sys)
    requires Generated(cfg, L)
  {
    && WellFormed(s.repo) && Tracked(s.repo, L) && Typed(s.(pools := s.pools - {L}))
    && Index(s.repo, L) <= Capacity(cfg.batch, cfg.steps[L])
    && forall c :: |c| == L && LiveCode(s.repo, c) ==> c in Issued(cfg, s.repo, L)
  }

  /** Rebuilding from any pool contents restores ownership, and no removed code stays away. */
  lemma {:induction false} RebuildRestores(cfg: Config, L: int, s: Sys)
    requires ValidConfig(cfg) && Generated(cfg, L) && Recoverable(cfg, L, s)
    ensures Owned(cfg, L, RebuildPool(cfg, s, L), {})
  {
    var lost, t := s.(pools := s.pools - {L}), RebuildPool(cfg, s, L);
    assert Index(lost.repo, L) >= 0;
    RebuildExact(cfg, L, s);
    RebuildTyped(cfg, lost, L);
    assert RebuildPool(cfg, lost, L).pools == t.pools;
    forall c: string
      ensures Home(Issued(cfg, s.repo, L), PoolOf(t.pools, L), |c| == L && LiveCode(s.repo, c), {}, c)
    {
    }
  }

  lemma {:induction false} OwnedIsRecoverable(cfg: Config, L: int, s: Sys, removed: set<string>)
    requires Generated(cfg, L) && Owned(cfg, L, s, removed)
    ensures Recoverable(cfg, L, s)
  {
    var lost := s.(pools := s.pools - {L});
    forall k, c | c in PoolOf(lost.pools, k) ensures |c| == k {
      assert c in PoolOf(s.pools, k);
    }
    assert forall k :: Index(lost.repo, k) == Index(s.repo, k);
    forall c | |c| == L && LiveCode(s.repo, c) ensures c in Issued(cfg, s.repo, L) {
      HomeOf(cfg, L, s, removed, c);
    }
  }

  lemma {:induction false} RebuildKeeps(cfg: Config, L: int, s: Sys, length: int, removed: set<string>)
    requires ValidConfig(cfg) && Generated(cfg, L) && Owned(cfg, L, s, removed)
    ensures Owned(cfg, L, RebuildPool(cfg, s, length), if length == L then {} else removed)
  {
    if length == L {
      OwnedIsRecoverable(cfg, L, s, removed);
      RebuildRestores(cfg, L, s);
    } else {
      RebuildTyped(cfg, s, length);
      Unmoved(cfg, L, s, RebuildPool(cfg, s, length), removed);
    }
  }

  // ---- every step, every run ----

  /**
    In a state that satisfies the invariant, a step keeps it exactly when its guard holds:
    the two guarded events are the only ways a code of a generated length can get two owners.
   */
  lemma {:induction false} StepKeepsOwnershipIff(cfg: Config, L: int, s: Sys, e: Event, removed: set<string>)
    requires ValidConfig(cfg) && Generated(cfg, L) && Owned(cfg, L, s, removed)
    ensures Owned(cfg, L, Apply(cfg, s, e), RemovedAfter(cfg, L, s, e, removed)) <==> Guard(cfg, L, s, e, removed)
  {
    match e
    case Create(length, title, link, expire) => CreateKeeps(cfg, L, s, length, title, link, expire, removed);
    case Add(code, title, link, expire) => AddIff(cfg, L, s, code, title, link, expire, removed);
    case Update(code, title, link, expire) => UpdateKeeps(cfg, L, s, code, title, link, expire, removed);
    case Remove(code) => RemoveKeeps(cfg, L, s, code, removed);
    case Generate(length) => GenerateIff(cfg, L, s, length, removed);
    case ExpireOne(id) => ExpireKeeps(cfg, L, s, id, removed);
    case RecycleOne(id) => RecycleKeeps(cfg, L, s, id, removed);
    case Rebuild(length) => RebuildKeeps(cfg, L, s, length, removed);
    case Lookup(code) =>
      SameTyped(s, Apply(cfg, s, e));
      Unmoved(cfg, L, s, Apply(cfg, s, e), removed);
    case Tick(now) =>
      SameTyped(s, Apply(cfg, s, e));
      Unmoved(cfg, L, s, Apply(cfg, s, e), removed);
  }

  ghost function RemovedBy(cfg: Config, L: int, s: Sys, es: seq<Event>): set<string> {
    if es == [] then {}
    else
      var front := es[..|es| - 1];
      RemovedAfter(cfg, L, Run(cfg, s, front), es[|es| - 1], RemovedBy(cfg, L, s, front))
  }

  /** Every step of the run meets its guard in the state it is taken in. */
  ghost predicate Guarded(cfg: Config, L: int, s: Sys, es: seq<Event>) {
    es != [] ==>
      var front := es[..|es| - 1];
      Guarded(cfg, L, s, front) && Guard(cfg, L, Run(cfg, s, front), es[|es| - 1], RemovedBy(cfg, L, s, front))
  }

  lemma {:induction false} EmptyIsOwned(cfg: Config, L: int, now: int)
    requires Generated(cfg, L)
    ensures Owned(cfg, L, Empty(now), {})
  {
    var s := Empty(now);
    forall c: string ensures Home(Issued(cfg, s.repo, L), PoolOf(s.pools, L), |c| == L && LiveCode(s.repo, c), {}, c) {
    }
  }

  lemma {:induction false} OwnedThroughout(cfg: Config, L: int, now: int, es: seq<Event>)
    requires ValidConfig(cfg) && Generated(cfg, L) && Guarded(cfg, L, Empty(now), es)
    ensures Owned(cfg, L, Run(cfg, Empty(now), es), RemovedBy(cfg, L, Empty(now), es))
  {
    if es == [] {
      EmptyIsOwned(cfg, L, now);
    } else {
      var front := es[..|es| - 1];
      OwnedThroughout(cfg, L, now, front);
      StepKeepsOwnershipIff(cfg, L, Run(cfg, Empty(now), front), es[|es| - 1], RemovedBy(cfg, L, Empty(now), front));
    }
  }

  /** The claim in plain words, about rows and pools. */
  ghost predicate ExclusiveOwnership(L: int, s: Sys) {
    && Distinct(PoolOf(s.pools, L))
    && forall id :: id in LiveIds(s.repo, L) ==>
      && s.repo.links[id].code !in PoolOf(s.pools, L)
      && forall other :: other in s.repo.links && s.repo.links[other].code == s.repo.links[id].code ==>
        other <= id && (other in LiveIds(s.repo, L) ==> other == id)
  }

  lemma {:induction false} OwnedIsExclusive(cfg: Config, L: int, s: Sys, removed: set<string>)
    requires Generated(cfg, L) && Owned(cfg, L, s, removed)
    ensures ExclusiveOwnership(L, s)
  {
    forall id | id in LiveIds(s.repo, L) ensures s.repo.links[id].code !in PoolOf(s.pools, L) {
      assert RowTracked(s.repo, id);
      HomeOf(cfg, L, s, removed, s.repo.links[id].code);
    }
    forall id, other | id in LiveIds(s.repo, L) && other in s.repo.links
      && s.repo.links[other].code == s.repo.links[id].code
      ensures other <= id && (other in LiveIds(s.repo, L) ==> other == id)
    {
      LiveIsNewest(s.repo, id, other);
    }
  }

  ghost function CodesAt(links: map<int, ShortLink>, ids: set<int>): set<string>
    requires ids <= links.Keys
  {
    set id | id in ids :: links[id].code
  }

  /** Pool, live links and removed codes share no code, make up all issued codes, and count up to them. */
  ghost predicate Conserved(cfg: Config, L: int, s: Sys, removed: set<string>)
    requires L in cfg.steps
  {
    var pool, live := PoolOf(s.pools, L), CodesAt(s.repo.links, LiveIds(s.repo, L));
    && Elements(pool) !! live && Elements(pool) !! removed && live !! removed
    && Elements(pool) + live + removed == Elements(Issued(cfg, s.repo, L))
    && |pool| + |LiveIds(s.repo, L)| + |removed| == cfg.batch * Index(s.repo, L)
  }

  lemma {:induction false} OwnedIsConserved(cfg: Config, L: int, s: Sys, removed: set<string>)
    requires Generated(cfg, L) && Owned(cfg, L, s, removed)
    ensures Conserved(cfg, L, s, removed)
  {
    var pool, live := PoolOf(s.pools, L), CodesAt(s.repo.links, LiveIds(s.repo, L));
    LiveCodesAt(s.repo, L);
    forall c ensures Home(Issued(cfg, s.repo, L), pool, c in live, removed, c) {
      HomeOf(cfg, L, s, removed, c);
    }
    Parts(Issued(cfg, s.repo, L), pool, live, removed);
    InjectiveSize(s.repo.links, LiveIds(s.repo, L));
    AllCodesDistinct(L, cfg.batch, cfg.steps[L], Index(s.repo, L));
    AllCodesSize(L, cfg.batch, cfg.steps[L], Index(s.repo, L));
  }

  lemma {:induction false} LiveCodesAt(m: Store, L: int)
    requires WellFormed(m) && Tracked(m, L)
    ensures forall c :: c in CodesAt(m.links, LiveIds(m, L)) <==> |c| == L && LiveCode(m, c)
    ensures forall a, b :: a in LiveIds(m, L) && b in LiveIds(m, L) && m.links[a].code == m.links[b].code ==> a == b
  {
    var ids := LiveIds(m, L);
    assert forall id :: id in ids ==> RowTracked(m, id);
    forall c ensures c in CodesAt(m.links, ids) <==> |c| == L && LiveCode(m, c) {
      if |c| == L && LiveCode(m, c) {
        var id := m.codeToID[c];
        assert m.links[id].code == c && m.links[id].length == L && id in ids;
      }
    }
  }

  lemma {:induction false} Parts(issued: seq<string>, pool: seq<string>, live: set<string>, removed: set<string>)
    requires forall c :: Home(issued, pool, c in live, removed, c)
    ensures Elements(pool) !! live && Elements(pool) !! removed && live !! removed
    ensures Elements(pool) + live + removed == Elements(issued)
    ensures Distinct(pool) && Distinct(issued) ==> |pool| + |live| + |removed| == |issued|
  {
    assert forall c :: c in Elements(pool) || c in live || c in removed ==> Home(issued, pool, c in live, removed, c);
    assert forall c :: c in issued ==> Home(issued, pool, c in live, removed, c);
    if Distinct(pool) && Distinct(issued) {
      DistinctSize(pool);
      DistinctSize(issued);
    }
  }

  lemma {:induction false} InjectiveSize(links: map<int, ShortLink>, ids: set<int>)
    requires ids <= links.Keys
    requires forall a, b :: a in ids && b in ids && links[a].code == links[b].code ==> a == b
    ensures |CodesAt(links, ids)| == |ids|
  {
    if ids == {} {
      assert CodesAt(links, ids) == {};
    } else {
      var id := Member(ids);
      InjectiveSize(links, ids - {id});
      assert CodesAt(links, ids) == CodesAt(links, ids - {id}) + {links[id].code};
    }
  }

  /**
    Over every guarded run from an empty system: codes are owned exclusively, and pool, live
    links and removed codes partition the codes of the batches generated so far.
   */
  lemma {:induction false} OwnershipAndConservation(cfg: Config, L: int, now: int, es: seq<Event>)
    requires ValidConfig(cfg) && cfg.manual < L <= cfg.max && Usable(cfg, L) && Guarded(cfg, L, Empty(now), es)
    ensures ExclusiveOwnership(L, Run(cfg, Empty(now), es))
    ensures Conserved(cfg, L, Run(cfg, Empty(now), es), RemovedBy(cfg, L, Empty(now), es))
  {
    ConfiguredLengthsAreGenerated(cfg, L);
    OwnedThroughout(cfg, L, now, es);
    OwnedIsExclusive(cfg, L, Run(cfg, Empty(now), es), RemovedBy(cfg, L, Empty(now), es));
    OwnedIsConserved(cfg, L, Run(cfg, Empty(now), es), RemovedBy(cfg, L, Empty(now), es));
  }
}
