/**
  Creates and batch generations of cores/service.go at the grain of the source, beside the sweeps:
  a Create has pulled its code and not yet written its row; a generation has read its index and is
  adding its codes one by one. Any number of them run at once.
 */
module Goroutines {
  import opened Collections
  import opened Generator
  import opened Links
  import opened MemoryPool
  import opened MemoryCache
  import opened Rows
  import opened Lifecycle
  import opened Ownership
  import opened Flight

  /**
    A generation holding the lock, as far as the lock holds anyone: the index it read, and the codes it
    has yet to add.
   */
  datatype Gen = Gen(length: int, index: int, todo: seq<string>)

  /** A Create with its code in hand. */
  datatype Hand = Hand(code: string, title: string, link: string, expire: int)

  datatype Crew = Crew(fine: Fine, gens: map<int, Gen>, hands: map<int, Hand>)

  /** A step of the service or its sweeps, of generation `g`, or of Create `h`. */
  datatype Move =
    | Step(a: Act)
    | ReadIndex(g: int, length: int)
    | AddCode(g: int)
    | SaveIndex(g: int)
    | Pull(h: int, length: int, title: string, link: string, expire: int)
    | Publish(h: int)
    | Insert(h: int)

  /** Steps that are taken apart here. */
  predicate IsSplit(a: Act) {
    a.Do? && (a.e.Create? || a.e.Generate?)
  }

  function With(c: Crew, s: Sys): Crew {
    c.(fine := c.fine.(sys := s))
  }

  /** The generation starts, if the length has a generator and that accepts the index. */
  predicate MayRead(cfg: Config, c: Crew, g: int, length: int) {
    && g !in c.gens && 0 <= length && length in cfg.steps && 0 <= cfg.batch
    && Index(c.fine.sys.repo, length) <= cfg.steps[length]
  }

  ghost function Moved(cfg: Config, c: Crew, m: Move): Crew {
    var s := c.fine.sys;
    match m
    case Step(a) => if IsSplit(a) then c else c.(fine := FineStep(cfg, c.fine, a))
    case ReadIndex(g, length) =>
      if !MayRead(cfg, c, g, length) then c
      else
        var index := Index(s.repo, length);
        c.(gens := c.gens[g := Gen(length, index, BatchCodes(length, cfg.steps[length], index, cfg.batch))])
    case AddCode(g) =>
      if g !in c.gens || c.gens[g].todo == [] then c
      else
        var x := c.gens[g];
        With(c, s.(pools := Appended(s.pools, x.length, [x.todo[0]]))).(gens := c.gens[g := x.(todo := x.todo[1..])])
    case SaveIndex(g) =>
      if g !in c.gens || c.gens[g].todo != [] then c
      else With(c, s.(repo := Saved(s.repo, c.gens[g].length, c.gens[g].index + 1))).(gens := c.gens - {g})
    case Pull(h, length, title, link, expire) =>
      if h in c.hands || length < 1 || length > cfg.max then c
      else With(c, s.(pools := Pulled(s.pools, length)))
             .(hands := c.hands[h := Hand(Oldest(s.pools, length), title, link, expire)])
    case Publish(h) =>
      if h !in c.hands then c
      else
        var x := c.hands[h];
        With(c, s.(cache := Put(s.cache, |x.code|, x.code, CacheItem(x.link, x.expire))))
    case Insert(h) =>
      if h !in c.hands then c
      else
        var x := c.hands[h];
        With(c, s.(repo := Inserted(s.repo, NewRow(x.code, x.title, x.link, x.expire)))).(hands := c.hands - {h})
  }

  ghost function MoveAll(cfg: Config, c: Crew, ms: seq<Move>): Crew {
    if ms == [] then c else Moved(cfg, MoveAll(cfg, c, ms[..|ms| - 1]), ms[|ms| - 1])
  }

  function Idle(now: int): Crew {
    Crew(Fine(Empty(now), map[]), map[], map[])
  }

  // ---- where the codes of a length are ----

  predicate Opened(gens: map<int, Gen>, L: int) {
    exists g :: g in gens.Keys && gens[g].length == L
  }

  /** The stored index as it will be when the running generation has ended. */
  function Raised(s: Sys, L: int): Sys {
    s.(repo := Saved(s.repo, L, Index(s.repo, L) + 1))
  }

  function Ahead(c: Crew, L: int): Sys {
    if Opened(c.gens, L) then Raised(View(c.fine), L) else View(c.fine)
  }

  /** The codes that generations of the length have yet to add. */
  ghost function ToAdd(gens: map<int, Gen>, L: int): set<string> {
    set g, code | g in gens && gens[g].length == L && code in gens[g].todo :: code
  }

  /** The codes of the length that are in hand. */
  ghost function InHand(hands: map<int, Hand>, L: int): set<string> {
    set h | h in hands && |hands[h].code| == L :: hands[h].code
  }

  /** The issued codes that are neither pooled nor live. */
  ghost function Away(c: Crew, L: int, removed: set<string>): set<string> {
    removed + InHand(c.hands, L) + ToAdd(c.gens, L)
  }

  ghost predicate GenSound(cfg: Config, x: Gen) {
    && 0 <= x.length && x.length in cfg.steps && 0 <= x.index <= cfg.steps[x.length] && 0 <= cfg.batch
    && forall code :: code in x.todo ==>
         |code| == x.length && code in BatchCodes(x.length, cfg.steps[x.length], x.index, cfg.batch)
  }

  ghost predicate GensSound(cfg: Config, gens: map<int, Gen>) {
    forall g :: g in gens ==> GenSound(cfg, gens[g])
  }

  /** At most one generation of the length runs; it has read the stored index, and its codes are distinct. */
  ghost predicate OneGen(m: Store, gens: map<int, Gen>, L: int) {
    && (forall g :: g in gens && gens[g].length == L ==> gens[g].index == Index(m, L) && Distinct(gens[g].todo))
    && (forall g, k :: g in gens && k in gens && gens[g].length == L && gens[k].length == L ==> g == k)
  }

  ghost predicate HandsApart(hands: map<int, Hand>, L: int) {
    forall h, k :: h in hands && k in hands && |hands[h].code| == L && hands[h].code == hands[k].code ==> h == k
  }

  ghost predicate Disjoint(a: set<string>, b: set<string>, d: set<string>) {
    a !! b && a !! d && b !! d
  }

  /** What generations and Creates hold is consistent, and no code of the length is held twice. */
  ghost predicate Holding(cfg: Config, L: int, c: Crew, removed: set<string>) {
    && Intact(c.fine) && GensSound(cfg, c.gens) && OneGen(c.fine.sys.repo, c.gens, L) && HandsApart(c.hands, L)
    && Disjoint(removed, InHand(c.hands, L), ToAdd(c.gens, L))
  }

  /**
    Every issued code of the length, those of the running batch included, is in exactly one place:
    in the pool, with a live link, in hand, still to be added, or taken away by Remove.
   */
  ghost predicate CrewOwned(cfg: Config, L: int, c: Crew, removed: set<string>)
    requires Generated(cfg, L)
  {
    Holding(cfg, L, c, removed) && Owned(cfg, L, Ahead(c, L), Away(c, L, removed))
  }

  /** A rebuild takes removed codes back, but not those of the running batch. */
  function RemovedMoving(cfg: Config, L: int, c: Crew, m: Move, removed: set<string>): set<string> {
    if !m.Step? || IsSplit(m.a) then removed
    else if m.a == Do(Rebuild(L)) then removed - (set code | code in Issued(cfg, c.fine.sys.repo, L))
    else match Coarse(c.fine.tasks, m.a) {
           case Some(e) => RemovedAfter(cfg, L, View(c.fine), e, removed)
           case None => removed
         }
  }

  /** The batch of the generation that runs. */
  function Running(cfg: Config, L: int, c: Crew): seq<string> {
    if Opened(c.gens, L) && 0 <= L && L in cfg.steps && 0 <= cfg.batch
    then BatchCodes(L, cfg.steps[L], Index(c.fine.sys.repo, L), cfg.batch) else []
  }

  /**
    Of the finished batches the codes in hand are exactly the half-returned ones: those still used, but
    pulled already. And no code of the running batch is in the pool.
   */
  ghost predicate MayRebuild(cfg: Config, L: int, c: Crew) {
    forall code: string :: MayReturn(cfg, L, c, code)
  }

  ghost predicate MayReturn(cfg: Config, L: int, c: Crew, code: string) {
    var s := c.fine.sys;
    && (code in Issued(cfg, s.repo, L) ==>
          (HalfReturned(c.fine.tasks, s.repo.links, L, [code]) <==> code in InHand(c.hands, L)))
    && !(code in Running(cfg, L, c) && code in PoolOf(s.pools, L))
  }

  /**
    What a step must meet to keep every code of the length in one place. For the new steps: a
    generation starts below index == step while no other runs, and a link is not inserted under the
    code of a row in flight.
   */
  ghost predicate MoveGuard(cfg: Config, L: int, c: Crew, m: Move, removed: set<string>) {
    match m
    case Step(a) =>
      !IsSplit(a) ==>
        && FlightGuard(cfg, c.fine, a)
        && (a.Do? && a.e.Add? && |a.e.code| == L ==> a.e.code in removed)
        && (a == Do(Rebuild(L)) ==> MayRebuild(cfg, L, c))
    case ReadIndex(g, length) =>
      length == L && MayRead(cfg, c, g, L) ==>
        !Opened(c.gens, L) && (cfg.batch != 1 ==> Index(c.fine.sys.repo, L) != cfg.steps[L])
    case Insert(h) => h in c.hands ==> !InFlight(c.fine, c.hands[h].code)
    case _ => true
  }

  ghost function RemovedAlong(cfg: Config, L: int, c: Crew, ms: seq<Move>): set<string> {
    if ms == [] then {}
    else
      var front := ms[..|ms| - 1];
      RemovedMoving(cfg, L, MoveAll(cfg, c, front), ms[|ms| - 1], RemovedAlong(cfg, L, c, front))
  }

  ghost predicate MovesGuarded(cfg: Config, L: int, c: Crew, ms: seq<Move>) {
    ms != [] ==>
      var front := ms[..|ms| - 1];
      && MovesGuarded(cfg, L, c, front)
      && MoveGuard(cfg, L, MoveAll(cfg, c, front), ms[|ms| - 1], RemovedAlong(cfg, L, c, front))
  }

  /** Pooled codes, live links and codes in hand have nothing in common, and nothing is there twice. */
  ghost predicate CrewExclusive(L: int, c: Crew) {
    && ExclusiveOwnership(L, View(c.fine)) && HandsApart(c.hands, L)
    && forall code :: code in InHand(c.hands, L) ==>
         code !in PoolOf(c.fine.sys.pools, L) && !LiveCode(View(c.fine).repo, code)
  }

  /** All codes of the batches begun, counted by where they are. */
  ghost predicate CrewConserved(cfg: Config, L: int, c: Crew, removed: set<string>) {
    |PoolOf(c.fine.sys.pools, L)| + |LiveIds(View(c.fine).repo, L)| + |InHand(c.hands, L)|
      + |ToAdd(c.gens, L)| + |removed|
      == cfg.batch * (Index(c.fine.sys.repo, L) + if Opened(c.gens, L) then 1 else 0)
  }

  // ---- run alone, they are the steps of the service ----

  /** Generation `g` after `n` of its codes. */
  function Added(c: Crew, g: int, n: nat): Crew
    requires g in c.gens && n <= |c.gens[g].todo|
  {
    var s, x := c.fine.sys, c.gens[g];
    if n == 0 then c
    else With(c, s.(pools := Appended(s.pools, x.length, x.todo[..n]))).(gens := c.gens[g := x.(todo := x.todo[n..])])
  }

  lemma {:induction false} AddedNext(cfg: Config, c: Crew, g: int, n: nat)
    requires g in c.gens && n < |c.gens[g].todo|
    ensures Moved(cfg, Added(c, g, n), AddCode(g)) == Added(c, g, n + 1)
  {
    var x := c.gens[g];
    var todo, pool := x.todo, PoolOf(c.fine.sys.pools, x.length);
    assert pool + todo[..n + 1] == (pool + todo[..n]) + [todo[n]];
    assert todo[n..][1..] == todo[n + 1..];
    if n == 0 {
      assert todo[..1] == [todo[0]];
    } else {
      var d := Added(c, g, n);
      assert PoolOf(d.fine.sys.pools, x.length) == pool + todo[..n] && d.gens[g].todo[0] == todo[n];
    }
  }

  /** `n` codes added in a row. */
  ghost function Adding(cfg: Config, c: Crew, g: int, n: nat): Crew {
    if n == 0 then c else Moved(cfg, Adding(cfg, c, g, n - 1), AddCode(g))
  }

  lemma {:induction false} AddingAlone(cfg: Config, c: Crew, g: int, n: nat)
    requires g in c.gens && n <= |c.gens[g].todo|
    ensures Adding(cfg, c, g, n) == Added(c, g, n)
  {
    if n > 0 {
      AddingAlone(cfg, c, g, n - 1);
      AddedNext(cfg, c, g, n - 1);
    }
  }

  /** A generation that nothing interrupts is the Generate step. */
  lemma {:induction false} AloneIsGenerate(cfg: Config, c: Crew, g: int, length: int)
    requires MayRead(cfg, c, g, length) && cfg.batch >= 1
    ensures Moved(cfg, Adding(cfg, Moved(cfg, c, ReadIndex(g, length)), g, cfg.batch), SaveIndex(g))
      == With(c, GenerateBatch(cfg, c.fine.sys, length))
  {
    var b := Moved(cfg, c, ReadIndex(g, length));
    var codes := b.gens[g].todo;
    AddingAlone(cfg, b, g, cfg.batch);
    assert codes[..cfg.batch] == codes && codes[cfg.batch..] == [];
    assert Added(b, g, cfg.batch).gens - {g} == c.gens;
  }

  /** And so with a Create. */
  lemma {:induction false} AloneIsCreate(cfg: Config, c: Crew, h: int, length: int, title: string, link: string,
          expire: int)
    requires h !in c.hands && 1 <= length <= cfg.max
    ensures Moved(cfg, Moved(cfg, Moved(cfg, c, Pull(h, length, title, link, expire)), Publish(h)), Insert(h))
      == With(c, CreateLink(cfg, c.fine.sys, length, title, link, expire))
  {
    assert c.hands[h := Hand(Oldest(c.fine.sys.pools, length), title, link, expire)] - {h} == c.hands;
  }
}
