/** The sweeps over the SQL table: pages are copies, and a page is saved as it was read, with the new status. */
module TableFlight {
  import opened Collections
  import opened Links
  import opened MemoryPool
  import opened MemoryCache
  import opened Lifecycle
  import opened GormRepository
  import opened TableScan
  import opened Flight

  datatype FineTable = FineTable(sys: TableSys, tasks: Tasks)

  function HandledInTable(s: TableSys, t: Task): TableSys {
    if t.mark == Expired then s.(cache := Dropped(s.cache, t.row.length, t.row.code))
    else s.(pools := Appended(s.pools, t.row.length, [t.row.code]))
  }

  /** Marking touches only the copy; the write saves the whole copy, also when its row has changed or gone. */
  ghost function TableStep(cfg: Config, f: FineTable, a: Act): FineTable {
    match a
    case Do(e) => if IsSweep(e) then f else f.(sys := ApplyToTable(cfg, f.sys, e))
    case Read(k, id, mark, before) =>
      if k in f.tasks || !Readable(f.sys.table.rows, f.sys.now, id, mark, before) then f
      else f.(tasks := f.tasks[k := Task(f.sys.table.rows[id], mark, before, Todo)])
    case Handle(k) =>
      if k !in f.tasks || f.tasks[k].phase != Todo then f
      else FineTable(HandledInTable(f.sys, f.tasks[k]), f.tasks[k := f.tasks[k].(phase := Half)])
    case Mark(k) => f
    case Write(k) =>
      if k !in f.tasks || f.tasks[k].phase != Half then f
      else
        var t := f.tasks[k];
        FineTable(f.sys.(table := RowSaved(f.sys.table, t.row.(status := t.mark))), f.tasks - {k})
    case Forget(k) =>
      if k !in f.tasks || f.tasks[k].phase == Half then f else f.(tasks := f.tasks - {k})
  }

  ghost function TableRun(cfg: Config, f: FineTable, acts: seq<Act>): FineTable {
    if acts == [] then f else TableStep(cfg, TableRun(cfg, f, acts[..|acts| - 1]), acts[|acts| - 1])
  }

  function TableView(f: FineTable): TableSys {
    f.sys.(table := f.sys.table.(rows := Viewed(f.sys.table.rows, f.tasks)))
  }

  ghost function ApplyAnyToTable(cfg: Config, s: TableSys, e: Option<Event>): TableSys {
    match e
    case Some(e) => ApplyToTable(cfg, s, e)
    case None => s
  }

  ghost function CoarseTableRun(cfg: Config, f: FineTable, acts: seq<Act>): seq<Event> {
    if acts == [] then []
    else
      var front := acts[..|acts| - 1];
      CoarseTableRun(cfg, f, front) +
      match Coarse(TableRun(cfg, f, front).tasks, acts[|acts| - 1]) { case Some(e) => [e] case None => [] }
  }

  /** The copy is still the row. */
  ghost predicate CopyIntact(s: TableSys, t: Task) {
    var id := t.row.id;
    && id < s.table.nextID && id in s.table.rows && s.table.rows[id] == t.row
    && t.mark != Active && t.phase != Back && t.row.status == Source(t.mark)
    && (t.phase == Todo ==> t.row.expire < t.before <= Threshold(t.mark, s.now))
  }

  ghost predicate WellStored(t: Table) {
    Stored(t) && forall id :: id in t.rows ==> t.rows[id].length == |t.rows[id].code|
  }

  ghost predicate CopiesIntact(s: TableSys, tasks: Tasks) {
    forall k :: k in tasks ==> CopyIntact(s, tasks[k])
  }

  ghost predicate TableIntact(f: FineTable) {
    WellStored(f.sys.table) && CopiesIntact(f.sys, f.tasks) && OpenApart(f.tasks)
  }

  /**
    No row of a page in flight is updated to something else or removed, and no other sweep reads it.
    Links may be created under its code.
   */
  predicate TableGuard(f: FineTable, a: Act) {
    match a
    case Do(Update(code, title, link, expire)) =>
      match Newest(f.sys.table.rows, code) {
        case None => true
        case Some(row) =>
          (exists k :: k in f.tasks.Keys && f.tasks[k].row.id == row.id) ==>
            row.link == link && row.title == title && row.expire == expire
      }
    case Do(Remove(code)) => forall k :: k in f.tasks.Keys ==> f.tasks[k].row.code != code
    case Read(k, id, mark, before) =>
      k !in f.tasks && Readable(f.sys.table.rows, f.sys.now, id, mark, before) ==>
        forall j :: j in f.tasks.Keys ==> f.tasks[j].row.id != id
    case _ => true
  }

  predicate TableRebuildGuard(cfg: Config, f: FineTable, a: Act) {
    match a
    case Do(Rebuild(length)) =>
      1 <= length <= cfg.max ==>
        !HalfReturned(f.tasks, f.sys.table.rows, length, Regenerated(cfg, length, StoredIndex(f.sys.table, length)))
    case _ => true
  }

  ghost predicate TableUndisturbed(cfg: Config, f: FineTable, acts: seq<Act>) {
    acts != [] ==>
      var front, a := acts[..|acts| - 1], acts[|acts| - 1];
      && TableUndisturbed(cfg, f, front)
      && TableGuard(TableRun(cfg, f, front), a) && TableRebuildGuard(cfg, TableRun(cfg, f, front), a)
  }
}

/** While no step disturbs a page in flight, the sweeps over the table are the atomic ones too. */
module TableFlightSafety {
  import opened Collections
  import opened Links
  import opened MemoryPool
  import opened MemoryCache
  import opened Rows
  import opened Lifecycle
  import opened GormRepository
  import opened TableScan
  import opened Flight
  import opened FlightSafety
  import opened TableFlight

  lemma {:induction false} InsertCopies(f: FineTable, row: ShortLink, s': TableSys)
    requires TableIntact(f) && row.id == 0 && row.length == |row.code|
    requires s'.table == RowInserted(f.sys.table, row) && s'.now == f.sys.now
    ensures TableIntact(FineTable(s', f.tasks))
  {
    forall k | k in f.tasks ensures CopyIntact(s', f.tasks[k]) {
      assert CopyIntact(f.sys, f.tasks[k]);
    }
  }

  lemma {:induction false} NewestIs(rows: map<int, ShortLink>, code: string, id: int)
    requires IsNewest(rows, code, id)
    ensures Newest(rows, code) == Some(rows[id])
  {
    NewestExists(rows, code);
  }

  lemma {:induction false} UpdateCopiesIff(f: FineTable, code: string, title: string, link: string, expire: int)
    requires TableIntact(f)
    ensures TableIntact(f.(sys := UpdateRow(f.sys, code, title, link, expire)))
      <==> TableGuard(f, Do(Update(code, title, link, expire)))
  {
    var rows := f.sys.table.rows;
    NewestExists(rows, code);
    if Newest(rows, code).Some? {
      var id :| IsNewest(rows, code, id) && Newest(rows, code) == Some(rows[id]);
      var s', row := UpdateRow(f.sys, code, title, link, expire), rows[id];
      var same := row.link == link && row.title == title && row.expire == expire;
      assert row.id == id;
      forall k | k in f.tasks ensures CopyIntact(s', f.tasks[k]) <==> (f.tasks[k].row.id == id ==> same) {
        assert CopyIntact(f.sys, f.tasks[k]);
      }
    }
  }

  lemma {:induction false} RemoveCopiesIff(f: FineTable, code: string)
    requires TableIntact(f)
    ensures TableIntact(f.(sys :=
      f.sys.(cache := Dropped(f.sys.cache, |code|, code), table := CodeDeleted(f.sys.table, code))))
      <==> forall k :: k in f.tasks.Keys ==> f.tasks[k].row.code != code
  {
    var s' := f.sys.(cache := Dropped(f.sys.cache, |code|, code), table := CodeDeleted(f.sys.table, code));
    forall k | k in f.tasks ensures CopyIntact(s', f.tasks[k]) <==> f.tasks[k].row.code != code {
      assert CopyIntact(f.sys, f.tasks[k]);
    }
  }

  lemma {:induction false} SameCopies(f: FineTable, s': TableSys)
    requires TableIntact(f) && s'.now >= f.sys.now && s'.table == f.sys.table.(startIndex := s'.table.startIndex)
    ensures TableIntact(FineTable(s', f.tasks))
  {
    forall k | k in f.tasks ensures CopyIntact(s', f.tasks[k]) {
      assert CopyIntact(f.sys, f.tasks[k]);
    }
  }

  lemma {:induction false} DoCopiesIff(cfg: Config, f: FineTable, e: Event)
    requires TableIntact(f) && !IsSweep(e)
    ensures TableIntact(f.(sys := ApplyToTable(cfg, f.sys, e))) <==> TableGuard(f, Do(e))
  {
    match e
    case Create(length, title, link, expire) =>
      if 1 <= length <= cfg.max {
        InsertCopies(f, NewRow(Oldest(f.sys.pools, length), title, link, expire), ApplyToTable(cfg, f.sys, e));
      }
    case Add(code, title, link, expire) =>
      InsertCopies(f, NewRow(code, title, link, expire), ApplyToTable(cfg, f.sys, e));
    case Update(code, title, link, expire) => UpdateCopiesIff(f, code, title, link, expire);
    case Remove(code) => RemoveCopiesIff(f, code);
    case Generate(length) => SameCopies(f, ApplyToTable(cfg, f.sys, e));
    case Rebuild(length) => SameCopies(f, ApplyToTable(cfg, f.sys, e));
    case Lookup(code) => SameCopies(f, ApplyToTable(cfg, f.sys, e));
    case Tick(now) => SameCopies(f, ApplyToTable(cfg, f.sys, e));
  }

  lemma {:induction false} ReadCopyIff(f: FineTable, k: int, id: int, mark: Status, before: int)
    requires TableIntact(f) && k !in f.tasks && Readable(f.sys.table.rows, f.sys.now, id, mark, before)
    ensures TableIntact(f.(tasks := f.tasks[k := Task(f.sys.table.rows[id], mark, before, Todo)])) <==>
      forall j :: j in f.tasks.Keys ==> f.tasks[j].row.id != id
  {
    var t := Task(f.sys.table.rows[id], mark, before, Todo);
    var tasks := f.tasks[k := t];
    assert t.row.id == id && CopyIntact(f.sys, t);
    assert CopiesIntact(f.sys, tasks) by {
      assert tasks[k] == t && forall j :: j in f.tasks ==> tasks[j] == f.tasks[j];
    }
    if OpenApart(tasks) {
      forall j | j in f.tasks.Keys ensures f.tasks[j].row.id != id {
        assert tasks[j] == f.tasks[j] && tasks[k] == t && CopyIntact(f.sys, f.tasks[j]);
      }
    }
  }

  lemma {:induction false} HandleCopy(f: FineTable, k: int)
    requires TableIntact(f) && k in f.tasks && f.tasks[k].phase == Todo
    ensures TableIntact(FineTable(HandledInTable(f.sys, f.tasks[k]), f.tasks[k := f.tasks[k].(phase := Half)]))
  {
    var s', tasks := HandledInTable(f.sys, f.tasks[k]), f.tasks[k := f.tasks[k].(phase := Half)];
    forall j | j in tasks ensures CopyIntact(s', tasks[j]) {
      assert CopyIntact(f.sys, f.tasks[j]);
    }
  }

  lemma {:induction false} WriteCopy(f: FineTable, k: int)
    requires TableIntact(f) && k in f.tasks && f.tasks[k].phase == Half
    ensures var t := f.tasks[k];
      TableIntact(FineTable(f.sys.(table := RowSaved(f.sys.table, t.row.(status := t.mark))), f.tasks - {k}))
  {
    var t := f.tasks[k];
    assert CopyIntact(f.sys, t);
    var s', tasks := f.sys.(table := RowSaved(f.sys.table, t.row.(status := t.mark))), f.tasks - {k};
    forall j | j in tasks ensures CopyIntact(s', tasks[j]) {
      assert CopyIntact(f.sys, f.tasks[j]);
    }
  }

  /** A fine step over the table keeps the copies intact exactly when its guard holds. */
  lemma {:induction false} StepKeepsCopiesIff(cfg: Config, f: FineTable, a: Act)
    requires TableIntact(f)
    ensures TableIntact(TableStep(cfg, f, a)) <==> TableGuard(f, a)
  {
    match a
    case Do(e) => if !IsSweep(e) { DoCopiesIff(cfg, f, e); }
    case Read(k, id, mark, before) =>
      if k !in f.tasks && Readable(f.sys.table.rows, f.sys.now, id, mark, before) {
        ReadCopyIff(f, k, id, mark, before);
      }
    case Handle(k) => if k in f.tasks && f.tasks[k].phase == Todo { HandleCopy(f, k); }
    case Mark(k) =>
    case Write(k) => if k in f.tasks && f.tasks[k].phase == Half { WriteCopy(f, k); }
    case Forget(k) =>
  }

  // ---- the view moves by the service's own steps ----

  lemma {:induction false} InsertTableViewed(f: FineTable, s: TableSys, code: string, title: string, link: string,
          expire: int)
    requires TableIntact(f) && s.table == f.sys.table
    ensures TableView(FineTable(AddRow(s, code, title, link, expire), f.tasks))
      == AddRow(TableView(FineTable(s, f.tasks)), code, title, link, expire)
  {
    var n, row := s.table.nextID, NewRow(code, title, link, expire);
    forall k | k in f.tasks ensures f.tasks[k].row.id != n {
      assert CopyIntact(f.sys, f.tasks[k]);
    }
    assert Viewed(s.table.rows[n := row.(id := n)], f.tasks) == Viewed(s.table.rows, f.tasks)[n := row.(id := n)];
  }

  lemma {:induction false} NewestViewed(rows: map<int, ShortLink>, tasks: Tasks, code: string, id: int)
    ensures IsNewest(Viewed(rows, tasks), code, id) <==> IsNewest(rows, code, id)
  {
    var viewed := Viewed(rows, tasks);
    assert viewed.Keys == rows.Keys && forall k :: k in rows ==> viewed[k].code == rows[k].code;
  }

  lemma {:induction false} UpdateTableViewed(f: FineTable, code: string, title: string, link: string, expire: int)
    requires TableIntact(f) && TableGuard(f, Do(Update(code, title, link, expire)))
    ensures TableView(f.(sys := UpdateRow(f.sys, code, title, link, expire)))
      == UpdateRow(TableView(f), code, title, link, expire)
  {
    var rows, viewed := f.sys.table.rows, Viewed(f.sys.table.rows, f.tasks);
    NewestExists(rows, code);
    NewestExists(viewed, code);
    if Newest(rows, code).Some? {
      var id :| IsNewest(rows, code, id) && Newest(rows, code) == Some(rows[id]);
      NewestViewed(rows, f.tasks, code, id);
      NewestIs(viewed, code, id);
      assert rows[id].id == id;
      SavedViewed(rows, f.tasks, id, title, link, expire);
    }
  }

  lemma {:induction false} SavedViewed(rows: map<int, ShortLink>, tasks: Tasks, id: int, title: string, link: string,
          expire: int)
    requires id in rows
    requires Advancing(tasks, id) ==> rows[id].link == link && rows[id].title == title && rows[id].expire == expire
    ensures var viewed := Viewed(rows, tasks);
      Viewed(rows[id := rows[id].(link := link, title := title, expire := expire)], tasks)
        == viewed[id := viewed[id].(link := link, title := title, expire := expire)]
  {
  }

  lemma {:induction false} DeletedViewed(t: Table, tasks: Tasks, code: string)
    ensures Viewed(CodeDeleted(t, code).rows, tasks) == CodeDeleted(t.(rows := Viewed(t.rows, tasks)), code).rows
  {
  }

  lemma {:induction false} HalfCopy(f: FineTable, k: int)
    requires TableIntact(f) && k in f.tasks && f.tasks[k].phase == Half
    ensures var t := f.tasks[k];
      && t.row.id in f.sys.table.rows && f.sys.table.rows[t.row.id] == t.row
      && Advanced(t.row) == t.row.(status := t.mark) && t.mark != Active && t.row.status == Source(t.mark)
  {
    assert CopyIntact(f.sys, f.tasks[k]);
  }

  lemma {:induction false} RebuildTableViewed(cfg: Config, f: FineTable, length: int)
    requires TableIntact(f) && TableRebuildGuard(cfg, f, Do(Rebuild(length)))
    ensures TableView(f.(sys := RebuildFromTable(cfg, f.sys, length))) == RebuildFromTable(cfg, TableView(f), length)
  {
    forall k | k in f.tasks && f.tasks[k].phase == Half && f.tasks[k].row.id in f.sys.table.rows
      ensures var row := f.sys.table.rows[f.tasks[k].row.id];
        row == f.tasks[k].row && row.status == Source(f.tasks[k].mark) && f.tasks[k].mark != Active
    {
      HalfCopy(f, k);
    }
    if 1 <= length <= cfg.max {
      RemovalViewed(f.sys.table.rows, f.tasks, length, Regenerated(cfg, length, StoredIndex(f.sys.table, length)));
    }
  }

  lemma {:induction false} DoTableViewed(cfg: Config, f: FineTable, e: Event)
    requires TableIntact(f) && !IsSweep(e) && TableGuard(f, Do(e)) && TableRebuildGuard(cfg, f, Do(e))
    ensures TableView(f.(sys := ApplyToTable(cfg, f.sys, e))) == ApplyToTable(cfg, TableView(f), e)
  {
    match e
    case Create(length, title, link, expire) =>
      if 1 <= length <= cfg.max {
        InsertTableViewed(f, f.sys.(pools := Pulled(f.sys.pools, length)),
          Oldest(f.sys.pools, length), title, link, expire);
      }
    case Add(code, title, link, expire) => InsertTableViewed(f, f.sys, code, title, link, expire);
    case Update(code, title, link, expire) => UpdateTableViewed(f, code, title, link, expire);
    case Remove(code) => DeletedViewed(f.sys.table, f.tasks, code);
    case Rebuild(length) => RebuildTableViewed(cfg, f, length);
    case Generate(length) =>
    case Lookup(code) =>
    case Tick(now) =>
  }

  lemma {:induction false} HandleTableViewed(cfg: Config, f: FineTable, k: int)
    requires TableIntact(f) && k in f.tasks && f.tasks[k].phase == Todo
    ensures TableView(TableStep(cfg, f, Handle(k))) == ApplyAnyToTable(cfg, TableView(f), Coarse(f.tasks, Handle(k)))
  {
    var t, rows := f.tasks[k], f.sys.table.rows;
    var id := t.row.id;
    assert CopyIntact(f.sys, t) && !Advancing(f.tasks, id);
    assert TableView(f).table.rows[id] == t.row && t.row.id == id;
    HandleAdvances(rows, f.tasks, k);
  }

  lemma {:induction false} WriteTableViewed(cfg: Config, f: FineTable, k: int)
    requires TableIntact(f) && k in f.tasks && f.tasks[k].phase == Half
    ensures TableView(TableStep(cfg, f, Write(k))) == TableView(f)
  {
    var t, rows := f.tasks[k], f.sys.table.rows;
    var id, tasks := t.row.id, f.tasks - {k};
    HalfCopy(f, k);
    var rows' := rows[id := t.row.(status := t.mark)];
    forall i | i in rows ensures Viewed(rows', tasks)[i] == Viewed(rows, f.tasks)[i] {
      if i == id {
        assert k in f.tasks.Keys && Advancing(f.tasks, id);
        assert !Advancing(tasks, id);
      } else {
        OthersAdvance(f.tasks, k, i);
      }
    }
    assert Viewed(rows', tasks) == Viewed(rows, f.tasks);
  }

  lemma {:induction false} SilentTableViewed(cfg: Config, f: FineTable, a: Act)
    requires a.Read? || a.Forget?
    ensures TableView(TableStep(cfg, f, a)) == TableView(f)
  {
    var f' := TableStep(cfg, f, a);
    forall id ensures Advancing(f'.tasks, id) <==> Advancing(f.tasks, id) {
      if Advancing(f.tasks, id) {
        var j :| j in f.tasks.Keys && f.tasks[j].phase == Half && f.tasks[j].row.id == id;
        assert j in f'.tasks.Keys && f'.tasks[j] == f.tasks[j];
      }
    }
    assert Viewed(f.sys.table.rows, f'.tasks) == Viewed(f.sys.table.rows, f.tasks);
  }

  lemma {:induction false} TableStepRefines(cfg: Config, f: FineTable, a: Act)
    requires TableIntact(f) && TableGuard(f, a) && TableRebuildGuard(cfg, f, a)
    ensures TableView(TableStep(cfg, f, a)) == ApplyAnyToTable(cfg, TableView(f), Coarse(f.tasks, a))
  {
    match a
    case Do(e) => if !IsSweep(e) { DoTableViewed(cfg, f, e); }
    case Handle(k) => if k in f.tasks && f.tasks[k].phase == Todo { HandleTableViewed(cfg, f, k); }
    case Mark(k) =>
    case Write(k) => if k in f.tasks && f.tasks[k].phase == Half { WriteTableViewed(cfg, f, k); }
    case _ => SilentTableViewed(cfg, f, a);
  }

  function EmptyTable(now: int): TableSys {
    TableSys(Table(map[], map[], 1), map[], map[], now)
  }

  /** Every undisturbed run over the table is a run of the service over the table with atomic sweep steps. */
  lemma {:induction false} TableRunRefines(cfg: Config, now: int, acts: seq<Act>)
    requires TableUndisturbed(cfg, FineTable(EmptyTable(now), map[]), acts)
    ensures var f0 := FineTable(EmptyTable(now), map[]);
      && TableIntact(TableRun(cfg, f0, acts))
      && TableView(TableRun(cfg, f0, acts)) == RunOnTable(cfg, EmptyTable(now), CoarseTableRun(cfg, f0, acts))
  {
    var f0 := FineTable(EmptyTable(now), map[]);
    if acts == [] {
      assert Viewed(map[], map[]) == map[];
    } else {
      var front, a := acts[..|acts| - 1], acts[|acts| - 1];
      var f := TableRun(cfg, f0, front);
      TableRunRefines(cfg, now, front);
      StepKeepsCopiesIff(cfg, f, a);
      TableStepRefines(cfg, f, a);
      var es := CoarseTableRun(cfg, f0, front);
      if Coarse(f.tasks, a).Some? {
        assert (es + [Coarse(f.tasks, a).value])[..|es|] == es;
      } else {
        assert es + [] == es;
      }
    }
  }
}
