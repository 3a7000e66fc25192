/** The service running over the SQL table instead of the in-memory repository. */
module TableScan {
  import opened Collections
  import opened Generator
  import opened Links
  import opened MemoryPool
  import opened MemoryCache
  import opened Rows
  import opened Lifecycle
  import opened GormRepository

  datatype TableSys = TableSys(table: Table, pools: Pools, cache: Cache, now: int)

  function AddRow(s: TableSys, code: string, title: string, link: string, expire: int): TableSys {
    s.(cache := Put(s.cache, |code|, code, CacheItem(link, expire)),
       table := RowInserted(s.table, NewRow(code, title, link, expire)))
  }

  function UpdateRow(s: TableSys, code: string, title: string, link: string, expire: int): TableSys {
    match Newest(s.table.rows, code)
    case None => s
    case Some(row) =>
      s.(cache := Put(s.cache, |code|, code, CacheItem(link, expire)),
         table := RowSaved(s.table, row.(link := link, title := title, expire := expire)))
  }

  function GenerateRow(cfg: Config, s: TableSys, length: int): TableSys {
    var index := StoredIndex(s.table, length);
    if length < 0 || length !in cfg.steps || cfg.batch < 0 || index > cfg.steps[length] then s
    else s.(pools := Appended(s.pools, length, BatchCodes(length, cfg.steps[length], index, cfg.batch)),
            table := s.table.(startIndex := s.table.startIndex[length := index + 1]))
  }

  function ExpireRow(s: TableSys, id: int): TableSys {
    if id in s.table.rows && s.table.rows[id].status == Active && s.table.rows[id].expire < s.now then
      var row := s.table.rows[id];
      s.(cache := Dropped(s.cache, row.length, row.code), table := RowSaved(s.table, row.(status := Expired)))
    else s
  }

  function RecycleRow(s: TableSys, id: int): TableSys {
    if id in s.table.rows && s.table.rows[id].status == Expired && s.table.rows[id].expire < s.now - YEAR then
      var row := s.table.rows[id];
      s.(pools := Appended(s.pools, row.length, [row.code]), table := RowSaved(s.table, row.(status := Recycled)))
    else s
  }

  ghost function RebuildFromTable(cfg: Config, s: TableSys, length: int): TableSys {
    if length < 1 || length > cfg.max then s
    else s.(pools := s.pools[length := RemoveAll(Regenerated(cfg, length, StoredIndex(s.table, length)),
                                                 UsedCodes(s.table.rows, length))])
  }

  ghost function ApplyToTable(cfg: Config, s: TableSys, e: Event): TableSys {
    match e
    case Create(length, title, link, expire) =>
      if length < 1 || length > cfg.max then s
      else AddRow(s.(pools := Pulled(s.pools, length)), Oldest(s.pools, length), title, link, expire)
    case Add(code, title, link, expire) => AddRow(s, code, title, link, expire)
    case Update(code, title, link, expire) => UpdateRow(s, code, title, link, expire)
    case Remove(code) => s.(cache := Dropped(s.cache, |code|, code), table := CodeDeleted(s.table, code))
    case Generate(length) => GenerateRow(cfg, s, length)
    case ExpireOne(id) => ExpireRow(s, id)
    case RecycleOne(id) => RecycleRow(s, id)
    case Rebuild(length) => RebuildFromTable(cfg, s, length)
    case Lookup(code) => s.(cache := LookedUp(s.cache, |code|, code, s.now))
    case Tick(now) => if now >= s.now then s.(now := now) else s
  }

  ghost function RunOnTable(cfg: Config, s: TableSys, es: seq<Event>): TableSys {
    if es == [] then s else ApplyToTable(cfg, RunOnTable(cfg, s, es[..|es| - 1]), es[|es| - 1])
  }

  /**
    The in-memory store holds the table's rows, and besides them only Recycled rows that a
    DeleteByCode left behind; its index has exactly the codes of the table.
   */
  ghost predicate SameRows(m: Store, t: Table) {
    && m.nextID == t.nextID && m.startIndex == t.startIndex
    && (forall id :: id in t.rows ==> id in m.links && m.links[id] == t.rows[id])
    && (forall id :: id in m.links && id !in t.rows ==> m.links[id].status == Recycled)
    && (forall c :: c in m.codeToID ==> m.codeToID[c] in t.rows)
    && (forall id :: id in t.rows ==> t.rows[id].code in m.codeToID)
  }

  ghost predicate Indexed(m: Store, t: Table) {
    WellFormed(m) && AllTracked(m) && SameRows(m, t)
  }

  ghost predicate InStep(s: Sys, t: TableSys) {
    Indexed(s.repo, t.table) && s.pools == t.pools && s.cache == t.cache && s.now == t.now
  }

  /** Links are added only under codes that no live link has; and codes of no character are generated once at most. */
  predicate IndexGuard(cfg: Config, s: Sys, e: Event) {
    match e
    case Create(length, _, _, _) => 1 <= length <= cfg.max ==> !LiveCode(s.repo, Oldest(s.pools, length))
    case Add(code, _, _, _) => !LiveCode(s.repo, code)
    case Generate(length) => length == 0 && 0 in cfg.steps ==> Index(s.repo, 0) == 0
    case _ => true
  }
}

/** The in-memory repository refines the table, step by step and over every run. */
module TableRefinement {
  import opened Collections
  import opened Generator
  import opened Links
  import opened MemoryRepository
  import opened MemoryPool
  import opened Rows
  import opened Lifecycle
  import opened GormRepository
  import opened Agreement
  import opened TableScan

  /** The index entry of a code, when there is one, is the largest ID with that code in store and table. */
  lemma {:induction false} IndexIsLargest(m: Store, t: Table, c: string)
    requires Indexed(m, t)
    ensures c in m.codeToID <==> exists id :: id in t.rows && t.rows[id].code == c
    ensures c in m.codeToID ==> IsNewest(t.rows, c, m.codeToID[c]) && IsNewest(m.links, c, m.codeToID[c])
  {
    if c in m.codeToID {
      var top := m.codeToID[c];
      assert t.rows[top].code == c;
      forall id | id in m.links && m.links[id].code == c ensures id <= top {
        assert RowTracked(m, id);
      }
    }
  }

  /** GetByCode answers the same row, or none in both. */
  lemma {:induction false} GetByCodeAgrees(m: Store, t: Table, c: string)
    requires Indexed(m, t)
    ensures Found(m, c) == Newest(t.rows, c)
  {
    IndexIsLargest(m, t, c);
    NewestExists(t.rows, c);
  }

  /** What the finders and the rebuild select: no Recycled row is among it. */
  lemma {:induction false} SelectionsAgree(m: Store, t: Table, length: int, statuses: set<Status>, status: Status,
          before: int)
    requires SameRows(m, t) && Recycled !in statuses && status != Recycled
    ensures WithStatus(m.links, length, statuses) == WithStatus(t.rows, length, statuses)
    ensures Due(m.links, status, before) == Due(t.rows, status, before)
  {
    var a, b := WithStatus(m.links, length, statuses), WithStatus(t.rows, length, statuses);
    forall id ensures id in a <==> id in b {}
    var c, d := Due(m.links, status, before), Due(t.rows, status, before);
    forall id ensures id in c <==> id in d {}
  }

  /** Page by page, a listing of Active or Expired links is the same. */
  lemma {:induction false} ListAgrees(m: Store, t: Table, length: int, statuses: seq<Status>, limit: nat, fromID: int,
          asc: bool, page: seq<ShortLink>, page': seq<ShortLink>)
    requires SameRows(m, t) && Keyed(m) && statuses != [] && Recycled !in statuses && limit >= 1
    requires RowsOf(m.links, page) && RowsOf(t.rows, page')
    requires Ids(page) == Prefix(Listing(After(WithStatus(m.links, length, Elements(statuses)), fromID), asc), limit)
    requires Ids(page') ==
      Limited(Listing(AfterAny(WithStatus(t.rows, length, Elements(Wanted(statuses))),
                               if fromID > 0 then Some(fromID) else None),
                      asc), limit)
    ensures page == page'
  {
    SelectionsAgree(m, t, length, Elements(statuses), Active, 0);
    var ids := WithStatus(m.links, length, Elements(statuses));
    if fromID <= 0 { assert After(ids, fromID) == ids; }
    SameIds(m, t, page, page');
  }

  /** A finder that visits memory rows in ID order returns the table's pages. */
  lemma {:induction false} OrderedFinderAgrees(m: Store, t: Table, status: Status, before: int, fromID: int,
          limit: nat, page: seq<ShortLink>, page': seq<ShortLink>)
    requires SameRows(m, t) && status != Recycled && RowsOf(m.links, page) && RowsOf(t.rows, page')
    requires IsPage(After(Due(m.links, status, before), fromID), limit, true, Ids(page))
    requires Ids(page') == Cut(Sorted(After(Due(t.rows, status, before), fromID)), limit)
    ensures page == page'
  {
    SelectionsAgree(m, t, 0, {}, status, before);
    OrderedPage(After(Due(m.links, status, before), fromID), limit, Ids(page));
    SameIds(m, t, page, page');
  }

  lemma {:induction false} SameIds(m: Store, t: Table, page: seq<ShortLink>, page': seq<ShortLink>)
    requires SameRows(m, t) && RowsOf(m.links, page) && RowsOf(t.rows, page') && Ids(page) == Ids(page')
    ensures page == page'
  {
    assert |page| == |Ids(page)| == |page'|;
    forall i | 0 <= i < |page| ensures page[i] == page'[i] {
      assert page[i].id == Ids(page)[i] == page'[i].id;
    }
  }

  // ---- the steps ----

  lemma {:induction false} InsertInStepIff(m: Store, t: Table, row: ShortLink)
    requires Indexed(m, t) && row.id == 0 && row.length == |row.code| && Live(row)
    ensures Indexed(Inserted(m, row), RowInserted(t, row)) <==> !LiveCode(m, row.code)
  {
    InsertedRows(m, row);
    InsertedAllTrackedIff(m, row);
    assert SameRows(Inserted(m, row), RowInserted(t, row));
  }

  lemma {:induction false} DeleteInStep(m: Store, t: Table, code: string)
    requires Indexed(m, t)
    ensures Indexed(Deleted(m, code), CodeDeleted(t, code))
  {
    var n, u := Deleted(m, code), CodeDeleted(t, code);
    AllIsEach(m);
    AllIsEach(n);
    forall L ensures Tracked(n, L) { DeletedRows(m, code, L); }
    DeletedRows(m, code, 0);
    IndexIsLargest(m, t, code);
    forall id | id in n.links && id !in u.rows ensures n.links[id].status == Recycled {
      if id in t.rows {
        assert t.rows[id].code == code && RowTracked(m, id);
      }
    }
    forall c | c in n.codeToID ensures n.codeToID[c] in u.rows {
      var id := m.codeToID[c];
      assert id in t.rows && m.links[id].code == c;
    }
    assert SameRows(n, u);
  }

  /** A row written back under its own code, where its code leads to it. */
  lemma {:induction false} SaveInStep(m: Store, t: Table, row: ShortLink)
    requires Indexed(m, t) && row.id in t.rows && row.code == t.rows[row.id].code && row.length == |row.code|
    requires row.code in m.codeToID && m.codeToID[row.code] == row.id && (Live(row) ==> Live(m.links[row.id]))
    ensures Indexed(Replaced(m, row), RowSaved(t, row))
  {
    var n, u := Replaced(m, row), RowSaved(t, row);
    RewrittenRow(m, row);
    forall id | id in n.links ensures RowTracked(n, id) {
      assert RowTracked(m, id);
    }
    assert SameRows(n, u);
  }

  lemma {:induction false} UpdateInStep(m: Store, t: Table, code: string, title: string, link: string, expire: int)
    requires Indexed(m, t) && Found(m, code).Some?
    ensures Newest(t.rows, code) == Found(m, code)
    ensures var row := Found(m, code).value.(link := link, title := title, expire := expire);
      Indexed(Replaced(m, row), RowSaved(t, row))
  {
    GetByCodeAgrees(m, t, code);
    IndexIsLargest(m, t, code);
    var row := Found(m, code).value.(link := link, title := title, expire := expire);
    assert row.id == m.codeToID[code] && row.code == code;
    SaveInStep(m, t, row);
  }

  lemma {:induction false} MarkInStep(m: Store, t: Table, id: int, status: Status)
    requires Indexed(m, t) && id in m.links && Live(m.links[id])
    ensures id in t.rows && t.rows[id] == m.links[id]
    ensures var row := m.links[id].(status := status); Indexed(Replaced(m, row), RowSaved(t, row))
  {
    assert RowTracked(m, id);
    SaveInStep(m, t, m.links[id].(status := status));
  }

  lemma {:induction false} IndexInStep(m: Store, t: Table, length: int, index: int)
    requires Indexed(m, t)
    ensures Indexed(Saved(m, length, index), t.(startIndex := t.startIndex[length := index]))
  {
    var n := Saved(m, length, index);
    forall id | id in n.links ensures RowTracked(n, id) {
      assert RowTracked(m, id);
    }
  }

  lemma {:induction false} UsedCodesAgree(m: Store, t: Table, length: int)
    requires SameRows(m, t)
    ensures UsedCodes(m.links, length) == UsedCodes(t.rows, length)
  {
    SelectionsAgree(m, t, length, {Active, Expired}, Active, 0);
    var ids := Sorted(WithStatus(t.rows, length, {Active, Expired}));
    forall i | 0 <= i < |ids| ensures ids[i] in t.rows {
      assert ids[i] in Elements(ids);
    }
    CodesOfAgree(m, t, ids);
  }

  lemma {:induction false} CodesOfAgree(m: Store, t: Table, ids: seq<int>)
    requires SameRows(m, t) && forall i :: 0 <= i < |ids| ==> ids[i] in t.rows
    ensures CodesOf(m.links, ids) == CodesOf(t.rows, ids)
  {
    if ids != [] {
      CodesOfAgree(m, t, ids[..|ids| - 1]);
      assert ids[|ids| - 1] in t.rows;
    }
  }

  lemma {:induction false} AddInStepIff(s: Sys, t: TableSys, code: string, title: string, link: string, expire: int)
    requires InStep(s, t)
    ensures InStep(AddLink(s, code, title, link, expire), AddRow(t, code, title, link, expire)) <==>
      !LiveCode(s.repo, code)
  {
    InsertInStepIff(s.repo, t.table, NewRow(code, title, link, expire));
  }

  lemma {:induction false} UpdateRowInStep(s: Sys, t: TableSys, code: string, title: string, link: string, expire: int)
    requires InStep(s, t)
    ensures InStep(UpdateLink(s, code, title, link, expire), UpdateRow(t, code, title, link, expire))
  {
    GetByCodeAgrees(s.repo, t.table, code);
    if Found(s.repo, code).Some? { UpdateInStep(s.repo, t.table, code, title, link, expire); }
  }

  lemma {:induction false} ExpireInStep(s: Sys, t: TableSys, id: int)
    requires InStep(s, t)
    ensures InStep(ExpireLink(s, id), ExpireRow(t, id))
  {
    if MayExpire(s, id) { MarkInStep(s.repo, t.table, id, Expired); }
  }

  lemma {:induction false} RecycleInStep(s: Sys, t: TableSys, id: int)
    requires InStep(s, t)
    ensures InStep(RecycleLink(s, id), RecycleRow(t, id))
  {
    if MayRecycle(s, id) { MarkInStep(s.repo, t.table, id, Recycled); }
  }

  lemma {:induction false} EmptyCodesHaveNoStep(cfg: Config)
    requires ValidConfig(cfg)
    ensures 0 in cfg.steps ==> cfg.steps[0] == 0
  {
    assert Repeat('Z', 0) == "";
  }

  /** The table's index of length 0 always reads 0. */
  lemma {:induction false} GenerateInStepIff(cfg: Config, s: Sys, t: TableSys, length: int)
    requires ValidConfig(cfg) && InStep(s, t)
    ensures InStep(GenerateBatch(cfg, s, length), GenerateRow(cfg, t, length)) <==> IndexGuard(cfg, s, Generate(length))
  {
    var index := Index(s.repo, length);
    IndexInStep(s.repo, t.table, length, index + 1);
    EmptyCodesHaveNoStep(cfg);
    if length == 0 && 0 in cfg.steps {
      var n, u := GenerateBatch(cfg, s, 0), GenerateRow(cfg, t, 0);
      assert u.table.startIndex[0] == 1 && |PoolOf(u.pools, 0)| == |PoolOf(s.pools, 0)| + cfg.batch;
      if index > 0 { assert PoolOf(n.pools, 0) == PoolOf(s.pools, 0); }
      if index < 0 { assert n.repo.startIndex[0] == index + 1; }
    }
  }

  lemma {:induction false} RebuildInStep(cfg: Config, s: Sys, t: TableSys, length: int)
    requires InStep(s, t)
    ensures InStep(RebuildPool(cfg, s, length), RebuildFromTable(cfg, t, length))
  {
    UsedCodesAgree(s.repo, t.table, length);
  }

  /** A step keeps memory and table in step exactly when its guard holds. */
  lemma {:induction false} StepInStepIff(cfg: Config, s: Sys, t: TableSys, e: Event)
    requires ValidConfig(cfg) && InStep(s, t)
    ensures InStep(Apply(cfg, s, e), ApplyToTable(cfg, t, e)) <==> IndexGuard(cfg, s, e)
  {
    match e
    case Create(length, title, link, expire) =>
      if 1 <= length <= cfg.max {
        AddInStepIff(s.(pools := Pulled(s.pools, length)), t.(pools := Pulled(t.pools, length)),
                     Oldest(s.pools, length), title, link, expire);
      }
    case Add(code, title, link, expire) => AddInStepIff(s, t, code, title, link, expire);
    case Update(code, title, link, expire) => UpdateRowInStep(s, t, code, title, link, expire);
    case Remove(code) => DeleteInStep(s.repo, t.table, code);
    case Generate(length) => GenerateInStepIff(cfg, s, t, length);
    case ExpireOne(id) => ExpireInStep(s, t, id);
    case RecycleOne(id) => RecycleInStep(s, t, id);
    case Rebuild(length) => RebuildInStep(cfg, s, t, length);
    case Lookup(code) =>
    case Tick(now) =>
  }

  lemma {:induction false} InStepThroughout(cfg: Config, now: int, es: seq<Event>)
    requires ValidConfig(cfg) && Along(cfg, Empty(now), es, (s, e) => IndexGuard(cfg, s, e))
    ensures InStep(Run(cfg, Empty(now), es), RunOnTable(cfg, TableSys(Table(map[], map[], 1), map[], map[], now), es))
  {
    if es != [] {
      InStepThroughout(cfg, now, es[..|es| - 1]);
      StepInStepIff(cfg, Run(cfg, Empty(now), es[..|es| - 1]),
                    RunOnTable(cfg, TableSys(Table(map[], map[], 1), map[], map[], now), es[..|es| - 1]), es[|es| - 1]);
    }
  }

  // ---- listings of Recycled links ----

  ghost predicate SameRecycled(m: Store, t: Table, length: int) {
    WithStatus(m.links, length, {Recycled}) == WithStatus(t.rows, length, {Recycled})
  }

  /** Every Recycled row of the table with the code is the one its code leads to. */
  predicate OnlyFoundRecycled(m: Store, t: Table, code: string) {
    forall id :: id in t.rows && t.rows[id].code == code && t.rows[id].status == Recycled ==>
      Found(m, code) == Some(t.rows[id])
  }

  lemma {:induction false} RecycledAfterRemove(m: Store, t: Table, code: string, id: int)
    requires Indexed(m, t) && SameRecycled(m, t, |code|)
    ensures id in WithStatus(CodeDeleted(t, code).rows, |code|, {Recycled}) <==>
      id in WithStatus(t.rows, |code|, {Recycled}) && t.rows[id].code != code
    ensures id in WithStatus(Deleted(m, code).links, |code|, {Recycled}) <==>
      id in WithStatus(t.rows, |code|, {Recycled}) && !(code in m.codeToID && m.codeToID[code] == id)
  {
    assert id in WithStatus(m.links, |code|, {Recycled}) <==> id in WithStatus(t.rows, |code|, {Recycled});
  }

  /**
    Listings of Recycled links that agree go on agreeing after a Remove exactly when every Recycled
    row with the code is the one the code leads to: memory deletes that one, the table all of them.
   */
  lemma {:induction false} RecycledListingsIff(m: Store, t: Table, code: string)
    requires Indexed(m, t) && SameRecycled(m, t, |code|)
    ensures SameRecycled(Deleted(m, code), CodeDeleted(t, code), |code|) <==> OnlyFoundRecycled(m, t, code)
  {
    var a := WithStatus(Deleted(m, code).links, |code|, {Recycled});
    var b := WithStatus(CodeDeleted(t, code).rows, |code|, {Recycled});
    forall id | id in t.rows ensures t.rows[id].id == id && t.rows[id].length == |t.rows[id].code| {
      assert m.links[id] == t.rows[id];
    }
    IndexIsLargest(m, t, code);
    if OnlyFoundRecycled(m, t, code) {
      forall id ensures id in a <==> id in b {
        RecycledAfterRemove(m, t, code, id);
      }
      assert a == b;
    }
    forall id | a == b && id in t.rows && t.rows[id].code == code && t.rows[id].status == Recycled
      ensures Found(m, code) == Some(t.rows[id])
    {
      RecycledAfterRemove(m, t, code, id);
      assert id in WithStatus(t.rows, |code|, {Recycled}) && (id in a <==> id in b);
    }
  }

  /** So a code issued twice and then removed leaves its first, Recycled row behind in memory. */
  lemma {:induction false} RecycledRowStays(m: Store, t: Table, code: string, first: int)
    requires Indexed(m, t) && LiveCode(m, code) && SameRecycled(m, t, |code|)
    requires first in t.rows && t.rows[first].code == code && t.rows[first].status == Recycled
    ensures first in Deleted(m, code).links && first !in CodeDeleted(t, code).rows
    ensures !SameRecycled(Deleted(m, code), CodeDeleted(t, code), |code|)
  {
    RecycledListingsIff(m, t, code);
  }
}
