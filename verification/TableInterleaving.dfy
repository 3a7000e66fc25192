/** Memory and table in step at the grain of the source, and where a disturbed page parts them. */
module TableInterleaving {
  import opened Collections
  import opened Links
  import opened MemoryPool
  import opened MemoryCache
  import opened Rows
  import opened Lifecycle
  import opened GormRepository
  import opened Agreement
  import opened TableScan
  import opened TableRefinement
  import opened Flight
  import opened FlightSafety
  import opened Interleaving
  import opened TableFlight
  import opened TableFlightSafety

  /**
    Undisturbed runs over memory and over the table that amount to the same service steps stay in
    step; how their sweeps interleave with these steps may differ.
   */
  lemma {:induction false} InStepInFlight(cfg: Config, now: int, acts: seq<Act>, acts': seq<Act>)
    requires Undisturbed(cfg, Start(now), acts) && TableUndisturbed(cfg, FineTable(EmptyTable(now), map[]), acts')
    requires ValidConfig(cfg)
      && CoarseRun(cfg, Start(now), acts) == CoarseTableRun(cfg, FineTable(EmptyTable(now), map[]), acts')
    requires Along(cfg, Empty(now), CoarseRun(cfg, Start(now), acts), (s, e) => IndexGuard(cfg, s, e))
    ensures InStep(View(FineRun(cfg, Start(now), acts)),
      TableView(TableRun(cfg, FineTable(EmptyTable(now), map[]), acts')))
  {
    RunRefines(cfg, now, acts);
    TableRunRefines(cfg, now, acts');
    InStepThroughout(cfg, now, CoarseRun(cfg, Start(now), acts));
  }

  /** What the newest row with a code would answer. */
  function NewestItem(rows: map<int, ShortLink>, now: int, c: string): Option<CacheItem> {
    match Newest(rows, c)
    case Some(row) => if row.status == Active && row.expire >= now then Some(CacheItem(row.link, row.expire)) else None
    case None => None
  }

  /** Over every undisturbed, guarded run over the table the cache answers what the newest row of a code says. */
  lemma {:induction false} TableAgreementInFlight(cfg: Config, now: int, acts: seq<Act>, c: string)
    requires ValidConfig(cfg) && TableUndisturbed(cfg, FineTable(EmptyTable(now), map[]), acts)
    requires var es := CoarseTableRun(cfg, FineTable(EmptyTable(now), map[]), acts);
      && Along(cfg, Empty(now), es, (s, e) => AgreementGuard(cfg, s, e))
      && Along(cfg, Empty(now), es, (s, e) => IndexGuard(cfg, s, e))
    ensures var g := TableRun(cfg, FineTable(EmptyTable(now), map[]), acts);
      Answer(g.sys.cache, |c|, c, g.sys.now) == NewestItem(TableView(g).table.rows, g.sys.now, c)
  {
    var es := CoarseTableRun(cfg, FineTable(EmptyTable(now), map[]), acts);
    var s, v := Run(cfg, Empty(now), es), TableView(TableRun(cfg, FineTable(EmptyTable(now), map[]), acts));
    TableRunRefines(cfg, now, acts);
    InStepThroughout(cfg, now, es);
    AgreementThroughout(cfg, now, es);
    GetByCodeAgrees(s.repo, v.table, c);
    assert CachedItem(s, c) == ActiveItem(s, c);
  }

  predicate GuardsAny(cfg: Config, s: Sys, e: Option<Event>) {
    e.Some? ==> IndexGuard(cfg, s, e.value)
  }

  /**
    Where one undisturbed fine step on each side stands for the same service step, they stay in step
    exactly when the guard of that step holds.
   */
  lemma {:induction false} FineStepsInStepIff(cfg: Config, f: Fine, g: FineTable, a: Act, b: Act)
    requires ValidConfig(cfg) && Intact(f) && TableIntact(g) && InStep(View(f), TableView(g))
    requires RebuildGuard(cfg, f, a) && TableGuard(g, b) && TableRebuildGuard(cfg, g, b)
    requires Coarse(f.tasks, a) == Coarse(g.tasks, b)
    ensures Intact(FineStep(cfg, f, a)) && InStep(View(FineStep(cfg, f, a)), TableView(TableStep(cfg, g, b)))
      <==> FlightGuard(cfg, f, a) && GuardsAny(cfg, View(f), Coarse(f.tasks, a))
  {
    StepKeepsIntactIff(cfg, f, a);
    StepRefines(cfg, f, a);
    TableStepRefines(cfg, g, b);
    if Coarse(f.tasks, a).Some? { StepInStepIff(cfg, View(f), TableView(g), Coarse(f.tasks, a).value); }
  }

  ghost function TablePage(cfg: Config, t: TableSys, id: int, mark: Status): FineTable {
    TableStep(cfg, TableStep(cfg, FineTable(t, map[]), Read(0, id, mark, Threshold(mark, t.now))), Handle(0))
  }

  lemma {:induction false} TablePageIs(cfg: Config, t: TableSys, id: int, mark: Status)
    requires Stored(t.table) && Readable(t.table.rows, t.now, id, mark, Threshold(mark, t.now))
    ensures var row := t.table.rows[id];
      TablePage(cfg, t, id, mark) ==
        var task := Task(row, mark, Threshold(mark, t.now), Half);
        FineTable(HandledInTable(t, task), map[0 := task])
  {
  }

  /**
    The Create that misleads the in-memory index does the table no harm: its newest row with the
    code is the new link. So memory and table, in step before, answer differently afterwards.
   */
  lemma {:induction false} CreateInPagePartsThem(cfg: Config, s: Sys, t: TableSys, id: int, title: string,
          link: string, expire: int)
    requires InStep(s, t) && Consistent(s) && MayRecycle(s, id) && expire >= s.now
    requires var L := s.repo.links[id].length; 1 <= L <= cfg.max && PoolOf(s.pools, L) == []
    ensures var row := s.repo.links[id];
      var create := Create(row.length, title, link, expire);
      var h := FineStep(cfg, FineStep(cfg, Page(cfg, s, id, Recycled), Do(create)), Write(0));
      var u := TableStep(cfg, TableStep(cfg, TablePage(cfg, t, id, Recycled), Do(create)), Write(0));
      && Found(h.sys.repo, row.code).Some? && Found(h.sys.repo, row.code).value.id == id
      && Newest(u.sys.table.rows, row.code) == Some(NewRow(row.code, title, link, expire).(id := s.repo.nextID))
  {
    var row := s.repo.links[id];
    CreateInPageMisleads(cfg, s, id, title, link, expire);
    MarkInStep(s.repo, t.table, id, Recycled);
    IndexIsLargest(s.repo, t.table, row.code);
    assert RowTracked(s.repo, id) && row.id == id;
    TableIsStored(s.repo, t.table);
    TablePageIs(cfg, t, id, Recycled);
    CreateThenWrite(cfg, t, id, title, link, expire);
  }

  lemma {:induction false} TableIsStored(m: Store, t: Table)
    requires Indexed(m, t)
    ensures Stored(t)
  {
  }

  lemma {:induction false} CreateThenWrite(cfg: Config, t: TableSys, id: int, title: string, link: string, expire: int)
    requires Stored(t.table) && Readable(t.table.rows, t.now, id, Recycled, Threshold(Recycled, t.now))
    requires var row := t.table.rows[id]; 1 <= row.length <= cfg.max && PoolOf(t.pools, row.length) == []
    ensures var row := t.table.rows[id];
      var create := Create(row.length, title, link, expire);
      var u := TableStep(cfg, TableStep(cfg, TablePage(cfg, t, id, Recycled), Do(create)), Write(0));
      Newest(u.sys.table.rows, row.code) == Some(NewRow(row.code, title, link, expire).(id := t.table.nextID))
  {
    var row, n := t.table.rows[id], t.table.nextID;
    var f := TablePage(cfg, t, id, Recycled);
    TablePageIs(cfg, t, id, Recycled);
    assert Oldest(f.sys.pools, row.length) == row.code;
    var g := TableStep(cfg, f, Do(Create(row.length, title, link, expire)));
    var u := TableStep(cfg, g, Write(0));
    assert u.sys.table.rows
      == t.table.rows[n := NewRow(row.code, title, link, expire).(id := n)][id := row.(status := Recycled)];
    assert IsNewest(u.sys.table.rows, row.code, n);
    NewestIs(u.sys.table.rows, row.code, n);
  }

  /** Over the table an Update of a link in flight is overwritten by the copy, while its cache entry stays. */
  lemma {:induction false} UpdateInPageIsOverwritten(cfg: Config, t: TableSys, id: int, title: string, link: string,
          expire: int)
    requires Stored(t.table) && Readable(t.table.rows, t.now, id, Expired, t.now) && expire >= t.now
    requires IsNewest(t.table.rows, t.table.rows[id].code, id)
    ensures var row := t.table.rows[id];
      var update := Update(row.code, title, link, expire);
      var f := TablePage(cfg, t, id, Expired);
      var u := TableStep(cfg, TableStep(cfg, f, Do(update)), Write(0));
      && !TableGuard(f, Do(update))
      && Newest(u.sys.table.rows, row.code) == Some(row.(status := Expired))
      && Answer(u.sys.cache, |row.code|, row.code, u.sys.now) == Some(CacheItem(link, expire))
  {
    var row := t.table.rows[id];
    var f := TablePage(cfg, t, id, Expired);
    TablePageIs(cfg, t, id, Expired);
    assert f.sys.table == t.table && 0 in f.tasks.Keys && f.tasks[0].row.id == id;
    NewestIs(t.table.rows, row.code, id);
    var u := TableStep(cfg, TableStep(cfg, f, Do(Update(row.code, title, link, expire))), Write(0));
    assert u.sys.table.rows == t.table.rows[id := row.(status := Expired)];
    assert IsNewest(u.sys.table.rows, row.code, id);
    NewestIs(u.sys.table.rows, row.code, id);
  }

  /** Saving the copy of a link removed meanwhile inserts it again. */
  lemma {:induction false} RemoveInPageIsRevived(cfg: Config, t: TableSys, id: int, mark: Status)
    requires Stored(t.table) && Readable(t.table.rows, t.now, id, mark, Threshold(mark, t.now))
    ensures var row := t.table.rows[id];
      var g := TableStep(cfg, TablePage(cfg, t, id, mark), Do(Remove(row.code)));
      var u := TableStep(cfg, g, Write(0));
      && id !in g.sys.table.rows && !TableGuard(TablePage(cfg, t, id, mark), Do(Remove(row.code)))
      && id in u.sys.table.rows && u.sys.table.rows[id] == row.(status := mark)
  {
    var f := TablePage(cfg, t, id, mark);
    TablePageIs(cfg, t, id, mark);
    assert 0 in f.tasks.Keys && f.tasks[0].row.code == t.table.rows[id].code;
  }

  /**
    Two servers recycle the same row, which both read before either saved it: a link created in
    between has the code, and the second server pools it again.
   */
  lemma {:induction false} TwoSweepsShareCode(cfg: Config, t: TableSys, id: int, title: string, link: string,
          expire: int)
    requires Stored(t.table) && Readable(t.table.rows, t.now, id, Recycled, Threshold(Recycled, t.now))
    requires var row := t.table.rows[id]; 1 <= row.length <= cfg.max && PoolOf(t.pools, row.length) == []
    ensures var row, before := t.table.rows[id], Threshold(Recycled, t.now);
      var f := TablePage(cfg, t, id, Recycled);
      var g := TableStep(cfg, f, Read(1, id, Recycled, before));
      var h := TableStep(cfg, g, Do(Create(row.length, title, link, expire)));
      var u := TableStep(cfg, h, Handle(1));
      && !TableGuard(f, Read(1, id, Recycled, before))
      && row.code in PoolOf(u.sys.pools, row.length)
      && t.table.nextID in u.sys.table.rows && u.sys.table.rows[t.table.nextID].code == row.code
      && u.sys.table.rows[t.table.nextID].status == Active
  {
    var row := t.table.rows[id];
    var f := TablePage(cfg, t, id, Recycled);
    TablePageIs(cfg, t, id, Recycled);
    assert 0 in f.tasks.Keys && f.tasks[0].row.id == row.id == id;
    assert Oldest(f.sys.pools, row.length) == row.code;
  }
}
