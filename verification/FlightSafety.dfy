/** While no step disturbs a row in flight, the sweeps of the source are the atomic ones. */
module FlightSafety {
  import opened Collections
  import opened Links
  import opened MemoryPool
  import opened Rows
  import opened Lifecycle
  import opened Flight

  // ---- rows in flight stay intact ----

  lemma {:induction false} DeletedWellFormed(m: Store, code: string)
    requires WellFormed(m)
    ensures WellFormed(Deleted(m, code))
  {
    var n := Deleted(m, code);
    if code in m.codeToID {
      forall c | c in n.codeToID ensures n.codeToID[c] in n.links && n.links[n.codeToID[c]].code == c {
        assert m.links[m.codeToID[c]].code == c;
      }
    }
  }

  lemma {:induction false} InsertTaskIff(s: Sys, t: Task, row: ShortLink, s': Sys)
    requires TaskIntact(s, t) && s'.repo == Inserted(s.repo, row) && s'.now == s.now
    ensures TaskIntact(s', t) <==> !(t.row.code == row.code && t.row.id in s.repo.links)
  {
  }

  lemma {:induction false} InsertIntactIff(f: Fine, row: ShortLink, s': Sys)
    requires Intact(f) && s'.repo == Inserted(f.sys.repo, row) && s'.now == f.sys.now
    requires row.length == |row.code| && Live(row)
    ensures Intact(Fine(s', f.tasks)) <==> !InFlight(f, row.code)
  {
    InsertedRows(f.sys.repo, row);
    forall k | k in f.tasks
      ensures TaskIntact(s', f.tasks[k]) <==>
        !(f.tasks[k].row.code == row.code && f.tasks[k].row.id in f.sys.repo.links)
    {
      InsertTaskIff(f.sys, f.tasks[k], row, s');
    }
  }

  lemma {:induction false} UpdateTaskIff(s: Sys, t: Task, code: string, title: string, link: string, expire: int)
    requires WellFormed(s.repo) && TaskIntact(s, t)
    ensures TaskIntact(UpdateLink(s, code, title, link, expire), t)
      <==> (t.phase == Todo && t.row.code == code ==> expire < t.before)
  {
    if Found(s.repo, code).Some? {
      var id := s.repo.codeToID[code];
      assert s.repo.links[id].id == id && s.repo.links[id].code == code;
    }
  }

  lemma {:induction false} UpdateIntactIff(f: Fine, code: string, title: string, link: string, expire: int)
    requires Intact(f)
    ensures Intact(f.(sys := UpdateLink(f.sys, code, title, link, expire))) <==>
      forall k :: k in f.tasks.Keys && f.tasks[k].phase == Todo && f.tasks[k].row.code == code ==>
        expire < f.tasks[k].before
  {
    if Found(f.sys.repo, code).Some? { UpdatedRow(f.sys.repo, code, title, link, expire); }
    forall k | k in f.tasks
      ensures TaskIntact(UpdateLink(f.sys, code, title, link, expire), f.tasks[k])
        <==> (f.tasks[k].phase == Todo && f.tasks[k].row.code == code ==> expire < f.tasks[k].before)
    {
      UpdateTaskIff(f.sys, f.tasks[k], code, title, link, expire);
    }
  }

  lemma {:induction false} RemoveTaskIff(s: Sys, t: Task, code: string)
    requires WellFormed(s.repo) && TaskIntact(s, t)
    ensures TaskIntact(RemoveLink(s, code), t) <==> !(t.phase == Todo && t.row.code == code)
  {
    if code in s.repo.codeToID { assert s.repo.links[s.repo.codeToID[code]].code == code; }
  }

  lemma {:induction false} RemoveIntactIff(f: Fine, code: string)
    requires Intact(f)
    ensures Intact(f.(sys := RemoveLink(f.sys, code))) <==>
      forall k :: k in f.tasks.Keys && f.tasks[k].phase == Todo ==> f.tasks[k].row.code != code
  {
    DeletedWellFormed(f.sys.repo, code);
    forall k | k in f.tasks
      ensures TaskIntact(RemoveLink(f.sys, code), f.tasks[k]) <==>
        !(f.tasks[k].phase == Todo && f.tasks[k].row.code == code)
    {
      RemoveTaskIff(f.sys, f.tasks[k], code);
    }
  }

  /** Steps that move no row, no index entry and at most the clock. */
  lemma {:induction false} SameRowsIntact(f: Fine, s': Sys)
    requires Intact(f) && s'.now >= f.sys.now && s'.repo == f.sys.repo.(startIndex := s'.repo.startIndex)
    ensures Intact(Fine(s', f.tasks))
  {
    forall k | k in f.tasks ensures TaskIntact(s', f.tasks[k]) {
      assert TaskIntact(f.sys, f.tasks[k]);
    }
  }

  lemma {:induction false} DoIntactIff(cfg: Config, f: Fine, e: Event)
    requires Intact(f) && !IsSweep(e)
    ensures Intact(FineStep(cfg, f, Do(e))) <==> FlightGuard(cfg, f, Do(e))
  {
    match e
    case Create(length, title, link, expire) =>
      if 1 <= length <= cfg.max {
        InsertIntactIff(f, NewRow(Oldest(f.sys.pools, length), title, link, expire), Apply(cfg, f.sys, e));
      }
    case Add(code, title, link, expire) =>
      InsertIntactIff(f, NewRow(code, title, link, expire), Apply(cfg, f.sys, e));
    case Update(code, title, link, expire) => UpdateIntactIff(f, code, title, link, expire);
    case Remove(code) => RemoveIntactIff(f, code);
    case Generate(length) => SameRowsIntact(f, Apply(cfg, f.sys, e));
    case Rebuild(length) => SameRowsIntact(f, Apply(cfg, f.sys, e));
    case Lookup(code) => SameRowsIntact(f, Apply(cfg, f.sys, e));
    case Tick(now) => SameRowsIntact(f, Apply(cfg, f.sys, e));
  }

  lemma {:induction false} ReadIntactIff(f: Fine, k: int, id: int, mark: Status, before: int)
    requires Intact(f) && k !in f.tasks && Readable(f.sys.repo.links, f.sys.now, id, mark, before)
    ensures Intact(f.(tasks := f.tasks[k := Task(f.sys.repo.links[id], mark, before, Todo)])) <==>
      && Leads(f.sys.repo, f.sys.repo.links[id].code, id)
      && forall j :: j in f.tasks.Keys && f.tasks[j].phase != Back ==> f.tasks[j].row.id != id
  {
    var t := Task(f.sys.repo.links[id], mark, before, Todo);
    var tasks := f.tasks[k := t];
    assert t.row.id == id;
    assert TaskIntact(f.sys, t) <==> Leads(f.sys.repo, f.sys.repo.links[id].code, id);
    assert AllIntact(f.sys, tasks) <==> TaskIntact(f.sys, t) by {
      assert tasks[k] == t && forall j :: j in f.tasks ==> tasks[j] == f.tasks[j];
    }
    if OpenApart(tasks) {
      forall j | j in f.tasks.Keys && f.tasks[j].phase != Back ensures f.tasks[j].row.id != id {
        assert tasks[j] == f.tasks[j] && tasks[k] == t;
      }
    }
  }

  lemma {:induction false} HandleIntact(f: Fine, k: int)
    requires Intact(f) && k in f.tasks && f.tasks[k].phase == Todo
    ensures Intact(Fine(Handled(f.sys, f.tasks[k]), f.tasks[k := f.tasks[k].(phase := Half)]))
  {
    var s', tasks := Handled(f.sys, f.tasks[k]), f.tasks[k := f.tasks[k].(phase := Half)];
    forall j | j in tasks ensures TaskIntact(s', tasks[j]) {
      assert TaskIntact(f.sys, f.tasks[j]);
    }
  }

  lemma {:induction false} MarkIntact(f: Fine, k: int)
    requires Intact(f) && k in f.tasks && f.tasks[k].phase == Half
    ensures var t := f.tasks[k];
      Intact(Fine(f.sys.(repo := WithMark(f.sys.repo, t.row.id, t.mark)), f.tasks[k := t.(phase := Back)]))
  {
    var t := f.tasks[k];
    var s', tasks := f.sys.(repo := WithMark(f.sys.repo, t.row.id, t.mark)), f.tasks[k := t.(phase := Back)];
    forall j | j in tasks ensures TaskIntact(s', tasks[j]) {
      assert TaskIntact(f.sys, f.tasks[j]) && TaskIntact(f.sys, t);
    }
  }

  /** Writing an intact row back changes nothing: it is the row itself, and its code leads to it already. */
  lemma {:induction false} WriteChangesNothing(f: Fine, k: int)
    requires Intact(f) && k in f.tasks
    ensures WrittenBack(f.sys.repo, f.tasks[k].row.id) == f.sys.repo
  {
    var m, id := f.sys.repo, f.tasks[k].row.id;
    assert TaskIntact(f.sys, f.tasks[k]);
    if id in m.links {
      assert m.links[id].id == id && m.links[id := m.links[id]] == m.links;
      assert m.codeToID[m.links[id].code := id] == m.codeToID;
    }
  }

  lemma {:induction false} DropTaskIntact(f: Fine, k: int)
    requires Intact(f)
    ensures Intact(f.(tasks := f.tasks - {k}))
  {
  }

  /** A fine step keeps the rows in flight intact exactly when its guard holds. */
  lemma {:induction false} StepKeepsIntactIff(cfg: Config, f: Fine, a: Act)
    requires Intact(f)
    ensures Intact(FineStep(cfg, f, a)) <==> FlightGuard(cfg, f, a)
  {
    match a
    case Do(e) => if !IsSweep(e) { DoIntactIff(cfg, f, e); }
    case Read(k, id, mark, before) =>
      if k !in f.tasks && Readable(f.sys.repo.links, f.sys.now, id, mark, before) {
        ReadIntactIff(f, k, id, mark, before);
      }
    case Handle(k) => if k in f.tasks && f.tasks[k].phase == Todo { HandleIntact(f, k); }
    case Mark(k) => if k in f.tasks && f.tasks[k].phase == Half { MarkIntact(f, k); }
    case Write(k) =>
      if k in f.tasks && f.tasks[k].phase == Back {
        WriteChangesNothing(f, k);
        DropTaskIntact(f, k);
      }
    case Forget(k) => DropTaskIntact(f, k);
  }

  // ---- the view moves by the service's own steps ----

  lemma {:induction false} InsertViewed(f: Fine, row: ShortLink)
    requires Intact(f)
    ensures View(f).repo.(links := Viewed(Inserted(f.sys.repo, row).links, f.tasks)) ==
      View(f).repo.(links := Inserted(View(f).repo, row).links)
  {
    var n := f.sys.repo.nextID;
    forall k | k in f.tasks ensures f.tasks[k].row.id != n {
      assert TaskIntact(f.sys, f.tasks[k]);
    }
    assert Viewed(f.sys.repo.links[n := row.(id := n)], f.tasks)
      == Viewed(f.sys.repo.links, f.tasks)[n := row.(id := n)];
  }

  lemma {:induction false} AddViewed(f: Fine, s: Sys, code: string, title: string, link: string, expire: int)
    requires Intact(f) && s.repo == f.sys.repo
    ensures View(Fine(AddLink(s, code, title, link, expire), f.tasks))
      == AddLink(View(Fine(s, f.tasks)), code, title, link, expire)
  {
    InsertViewed(f, NewRow(code, title, link, expire));
  }

  lemma {:induction false} UpdateViewed(f: Fine, code: string, title: string, link: string, expire: int)
    requires Intact(f)
    ensures View(f.(sys := UpdateLink(f.sys, code, title, link, expire)))
      == UpdateLink(View(f), code, title, link, expire)
  {
    var m := f.sys.repo;
    if Found(m, code).Some? {
      var id := m.codeToID[code];
      var row, viewed := m.links[id], Viewed(m.links, f.tasks)[id];
      var row' := row.(link := link, title := title, expire := expire);
      var viewed' := viewed.(link := link, title := title, expire := expire);
      assert row.id == id && viewed.id == id && viewed.code == row.code;
      assert Viewed(m.links[id := row'], f.tasks) == Viewed(m.links, f.tasks)[id := viewed'];
    }
  }

  lemma {:induction false} RemoveViewed(f: Fine, code: string)
    ensures View(f.(sys := RemoveLink(f.sys, code))) == RemoveLink(View(f), code)
  {
    var m := f.sys.repo;
    if code in m.codeToID {
      assert Viewed(m.links - {m.codeToID[code]}, f.tasks) == Viewed(m.links, f.tasks) - {m.codeToID[code]};
    }
  }

  lemma {:induction false} CodesOfViewed(links: map<int, ShortLink>, tasks: Tasks, ids: seq<int>)
    ensures CodesOf(Viewed(links, tasks), ids) == CodesOf(links, ids)
  {
    if ids != [] {
      CodesOfViewed(links, tasks, ids[..|ids| - 1]);
    }
  }

  // ---- which used codes a rebuild takes out ----

  function Kept(xs: seq<string>, s: seq<string>): seq<string> {
    if xs == [] then [] else Kept(xs[..|xs| - 1], s) + if xs[|xs| - 1] in s then [xs[|xs| - 1]] else []
  }

  /** Taking out a code that is not there does nothing. */
  lemma {:induction false} RemoveAllKept(s: seq<string>, xs: seq<string>)
    ensures RemoveAll(s, xs) == RemoveAll(s, Kept(xs, s))
  {
    if xs != [] {
      var front, last := xs[..|xs| - 1], xs[|xs| - 1];
      RemoveAllKept(s, front);
      if last in s {
        assert (Kept(front, s) + [last])[..|Kept(front, s)|] == Kept(front, s);
      } else {
        RemoveAllPart(s, front);
        RemoveFirstAbsent(RemoveAll(s, front), last);
        assert Kept(front, s) + [] == Kept(front, s);
      }
    }
  }

  function KeptIds(links: map<int, ShortLink>, ids: seq<int>, s: seq<string>): seq<int> {
    if ids == [] then []
    else
      var id := ids[|ids| - 1];
      KeptIds(links, ids[..|ids| - 1], s) + if id in links && links[id].code in s then [id] else []
  }

  lemma {:induction false} KeptCodes(links: map<int, ShortLink>, ids: seq<int>, s: seq<string>)
    ensures Kept(CodesOf(links, ids), s) == CodesOf(links, KeptIds(links, ids, s))
  {
    if ids != [] {
      var front, id := ids[..|ids| - 1], ids[|ids| - 1];
      var before, kept := CodesOf(links, front), KeptIds(links, front, s);
      KeptCodes(links, front, s);
      assert (kept + [id])[..|kept|] == kept && kept + [] == kept;
      if id in links {
        assert (before + [links[id].code])[..|before|] == before;
      } else {
        assert before + [] == before;
      }
    }
  }

  ghost function WithCodeIn(links: map<int, ShortLink>, ids: set<int>, s: seq<string>): set<int> {
    set id | id in ids && id in links && links[id].code in s
  }

  lemma {:induction false} KeptMember(links: map<int, ShortLink>, ids: seq<int>, s: seq<string>, k: int)
    ensures k in KeptIds(links, ids, s) <==> k in ids && k in links && links[k].code in s
  {
    if ids != [] {
      KeptMember(links, ids[..|ids| - 1], s, k);
      assert k in ids <==> k in ids[..|ids| - 1] || k == ids[|ids| - 1];
    }
  }

  lemma {:induction false} KeptAscends(links: map<int, ShortLink>, ids: seq<int>, s: seq<string>)
    requires Ascending(ids)
    ensures Ascending(KeptIds(links, ids, s))
  {
    if ids != [] {
      var front, id := ids[..|ids| - 1], ids[|ids| - 1];
      var kept := KeptIds(links, front, s);
      KeptAscends(links, front, s);
      forall i | 0 <= i < |kept| ensures kept[i] < id {
        KeptMember(links, front, s, kept[i]);
        var j :| 0 <= j < |front| && front[j] == kept[i];
        assert ids[j] < ids[|ids| - 1];
      }
    }
  }

  lemma {:induction false} KeptSorted(links: map<int, ShortLink>, ids: seq<int>, s: seq<string>)
    requires Ascending(ids)
    ensures Ascending(KeptIds(links, ids, s)) && Elements(KeptIds(links, ids, s)) == WithCodeIn(links, Elements(ids), s)
  {
    KeptAscends(links, ids, s);
    var kept, wanted := Elements(KeptIds(links, ids, s)), WithCodeIn(links, Elements(ids), s);
    forall k ensures k in kept <==> k in wanted {
      KeptMember(links, ids, s, k);
    }
  }

  /** What a rebuild takes out is decided by the rows whose code was issued. */
  lemma {:induction false} RemovalByIssued(links: map<int, ShortLink>, ids: set<int>, issued: seq<string>)
    ensures RemoveAll(issued, CodesOf(links, Sorted(ids)))
      == RemoveAll(issued, CodesOf(links, Sorted(WithCodeIn(links, ids, issued))))
  {
    var sorted := Sorted(ids);
    RemoveAllKept(issued, CodesOf(links, sorted));
    KeptCodes(links, sorted, issued);
    KeptSorted(links, sorted, issued);
    SortedUnique(KeptIds(links, sorted, issued), Sorted(WithCodeIn(links, ids, issued)));
  }

  /** Rows between handling and mark are what their tasks say. */
  ghost predicate HalvesTrue(links: map<int, ShortLink>, tasks: Tasks) {
    forall k :: k in tasks && tasks[k].phase == Half && tasks[k].row.id in links ==>
      var row := links[tasks[k].row.id];
      && row.code == tasks[k].row.code && row.length == tasks[k].row.length
      && row.status == Source(tasks[k].mark) && tasks[k].mark != Active
  }

  /** Where no issued code is half-returned, a rebuild by the rows is a rebuild by the view. */
  lemma {:induction false} RemovalViewed(links: map<int, ShortLink>, tasks: Tasks, length: int, issued: seq<string>)
    requires HalvesTrue(links, tasks) && !HalfReturned(tasks, links, length, issued)
    ensures RemoveAll(issued, UsedCodes(Viewed(links, tasks), length)) == RemoveAll(issued, UsedCodes(links, length))
  {
    var viewed, statuses := Viewed(links, tasks), {Active, Expired};
    var a, b := WithStatus(links, length, statuses), WithStatus(viewed, length, statuses);
    RemovalByIssued(links, a, issued);
    RemovalByIssued(viewed, b, issued);
    forall id ensures id in WithCodeIn(links, a, issued) <==> id in WithCodeIn(viewed, b, issued) {
      if id in links && Advancing(tasks, id) {
        var k :| k in tasks.Keys && tasks[k].phase == Half && tasks[k].row.id == id;
        HalfUsed(links, tasks, k, length, issued);
      }
    }
    assert WithCodeIn(links, a, issued) == WithCodeIn(viewed, b, issued);
    CodesOfViewed(links, tasks, Sorted(WithCodeIn(links, a, issued)));
  }

  lemma {:induction false} HalfUsed(links: map<int, ShortLink>, tasks: Tasks, k: int, length: int, issued: seq<string>)
    requires HalvesTrue(links, tasks) && !HalfReturned(tasks, links, length, issued)
    requires k in tasks.Keys && tasks[k].phase == Half && tasks[k].row.id in links
    ensures var row := links[tasks[k].row.id];
      row.length == length && row.code in issued ==> row.status == Active && Advanced(row).status == Expired
  {
  }

  lemma {:induction false} IntactHalves(f: Fine)
    requires Intact(f)
    ensures HalvesTrue(f.sys.repo.links, f.tasks)
  {
    forall k | k in f.tasks && f.tasks[k].phase == Half && f.tasks[k].row.id in f.sys.repo.links
      ensures var row := f.sys.repo.links[f.tasks[k].row.id];
        && row.code == f.tasks[k].row.code && row.length == f.tasks[k].row.length
        && row.status == Source(f.tasks[k].mark) && f.tasks[k].mark != Active
    {
      assert TaskIntact(f.sys, f.tasks[k]);
    }
  }

  lemma {:induction false} RebuildViewed(cfg: Config, f: Fine, length: int)
    requires Intact(f) && RebuildGuard(cfg, f, Do(Rebuild(length)))
    ensures View(f.(sys := RebuildPool(cfg, f.sys, length))) == RebuildPool(cfg, View(f), length)
  {
    IntactHalves(f);
    if 1 <= length <= cfg.max { RemovalViewed(f.sys.repo.links, f.tasks, length, Issued(cfg, f.sys.repo, length)); }
  }

  lemma {:induction false} HalfRow(f: Fine, k: int)
    requires Intact(f) && k in f.tasks && f.tasks[k].phase == Half && f.tasks[k].row.id in f.sys.repo.links
    ensures var row := f.sys.repo.links[f.tasks[k].row.id];
      && row.length == f.tasks[k].row.length && row.status == Source(f.tasks[k].mark)
      && Advanced(row).status == f.tasks[k].mark && f.tasks[k].mark != Active
  {
    assert TaskIntact(f.sys, f.tasks[k]);
  }

  /** Steps that leave the rows alone. */
  lemma {:induction false} DoViewed(cfg: Config, f: Fine, e: Event)
    requires Intact(f) && !IsSweep(e) && RebuildGuard(cfg, f, Do(e))
    ensures View(f.(sys := Apply(cfg, f.sys, e))) == Apply(cfg, View(f), e)
  {
    match e
    case Create(length, title, link, expire) =>
      if 1 <= length <= cfg.max {
        AddViewed(f, f.sys.(pools := Pulled(f.sys.pools, length)), Oldest(f.sys.pools, length), title, link, expire);
      }
    case Add(code, title, link, expire) => AddViewed(f, f.sys, code, title, link, expire);
    case Update(code, title, link, expire) => UpdateViewed(f, code, title, link, expire);
    case Remove(code) => RemoveViewed(f, code);
    case Rebuild(length) => RebuildViewed(cfg, f, length);
    case Generate(length) =>
    case Lookup(code) =>
    case Tick(now) =>
  }

  /** Handling a row is where the atomic sweep step happens. */
  lemma {:induction false} HandleViewed(cfg: Config, f: Fine, k: int)
    requires Intact(f) && k in f.tasks && f.tasks[k].phase == Todo
    ensures View(FineStep(cfg, f, Handle(k))) == ApplyAny(cfg, View(f), Coarse(f.tasks, Handle(k)))
  {
    var t, m := f.tasks[k], f.sys.repo;
    var id := t.row.id;
    assert TaskIntact(f.sys, t);
    assert !Advancing(f.tasks, id);
    var row := m.links[id];
    assert View(f).repo.links[id] == row && row.id == id;
    assert row.length == t.row.length == |row.code| == |t.row.code|;
    var tasks := f.tasks[k := t.(phase := Half)];
    HandleAdvances(m.links, f.tasks, k);
    assert m.codeToID[row.code := id] == m.codeToID;
  }

  lemma {:induction false} HandleAdvances(links: map<int, ShortLink>, tasks: Tasks, k: int)
    requires k in tasks && tasks[k].phase == Todo && tasks[k].row.id in links && !Advancing(tasks, tasks[k].row.id)
    ensures Viewed(links, tasks[k := tasks[k].(phase := Half)])
      == Viewed(links, tasks)[tasks[k].row.id := Advanced(links[tasks[k].row.id])]
  {
    var tasks' := tasks[k := tasks[k].(phase := Half)];
    assert tasks'[k].phase == Half;
    forall id | id in links ensures Advancing(tasks', id) <==> Advancing(tasks, id) || id == tasks[k].row.id {
      if Advancing(tasks, id) {
        var j :| j in tasks.Keys && tasks[j].phase == Half && tasks[j].row.id == id;
        assert j in tasks'.Keys && tasks'[j] == tasks[j];
      }
      if id == tasks[k].row.id { assert k in tasks'.Keys; }
    }
  }

  /** Marking a row in place does what the view has shown since its handling. */
  lemma {:induction false} MarkViewed(cfg: Config, f: Fine, k: int)
    requires Intact(f) && k in f.tasks && f.tasks[k].phase == Half
    ensures View(FineStep(cfg, f, Mark(k))) == View(f)
  {
    var t, m := f.tasks[k], f.sys.repo;
    var id, tasks := t.row.id, f.tasks[k := t.(phase := Back)];
    var n := WithMark(m, id, t.mark);
    if id in m.links { HalfRow(f, k); }
    forall i | i in m.links ensures Viewed(n.links, tasks)[i] == Viewed(m.links, f.tasks)[i] {
      if i == id {
        assert k in f.tasks.Keys && Advancing(f.tasks, id);
        assert !Advancing(tasks, id);
      } else {
        OthersAdvance(f.tasks, k, i);
      }
    }
    assert Viewed(n.links, tasks) == Viewed(m.links, f.tasks);
  }

  lemma {:induction false} OthersAdvance(tasks: Tasks, k: int, id: int)
    requires k in tasks && tasks[k].row.id != id
    ensures Advancing(tasks[k := tasks[k].(phase := Back)], id) <==> Advancing(tasks, id)
    ensures Advancing(tasks - {k}, id) <==> Advancing(tasks, id)
  {
    var tasks', tasks'' := tasks[k := tasks[k].(phase := Back)], tasks - {k};
    if Advancing(tasks, id) {
      var j :| j in tasks.Keys && tasks[j].phase == Half && tasks[j].row.id == id;
      assert j in tasks'.Keys && tasks'[j] == tasks[j] && j in tasks''.Keys && tasks''[j] == tasks[j];
    }
  }

  /** Reading a page, writing it back and dropping it do not move the view. */
  lemma {:induction false} SameHalves(f: Fine, tasks: Tasks)
    requires forall id :: Advancing(tasks, id) <==> Advancing(f.tasks, id)
    ensures View(f.(tasks := tasks)) == View(f)
  {
    assert Viewed(f.sys.repo.links, tasks) == Viewed(f.sys.repo.links, f.tasks);
  }

  lemma {:induction false} SilentViewed(cfg: Config, f: Fine, a: Act)
    requires Intact(f) && (a.Read? || a.Write? || a.Forget?)
    ensures View(FineStep(cfg, f, a)) == View(f)
  {
    if a.Write? && a.k in f.tasks { WriteChangesNothing(f, a.k); }
    var f' := FineStep(cfg, f, a);
    forall id ensures Advancing(f'.tasks, id) <==> Advancing(f.tasks, id) {
      if Advancing(f.tasks, id) {
        var j :| j in f.tasks.Keys && f.tasks[j].phase == Half && f.tasks[j].row.id == id;
        assert j in f'.tasks.Keys && f'.tasks[j] == f.tasks[j];
      }
    }
    SameHalves(f, f'.tasks);
  }

  /** An undisturbed fine step is a step of the service, or no step. */
  lemma {:induction false} StepRefines(cfg: Config, f: Fine, a: Act)
    requires Intact(f) && RebuildGuard(cfg, f, a)
    ensures View(FineStep(cfg, f, a)) == ApplyAny(cfg, View(f), Coarse(f.tasks, a))
  {
    match a
    case Do(e) => if !IsSweep(e) { DoViewed(cfg, f, e); }
    case Handle(k) => if k in f.tasks && f.tasks[k].phase == Todo { HandleViewed(cfg, f, k); }
    case Mark(k) => if k in f.tasks && f.tasks[k].phase == Half { MarkViewed(cfg, f, k); }
    case _ => SilentViewed(cfg, f, a);
  }

  function Start(now: int): Fine {
    Fine(Empty(now), map[])
  }

  /** Every undisturbed run of the source's steps is a run of the service with atomic sweep steps. */
  lemma {:induction false} RunRefines(cfg: Config, now: int, acts: seq<Act>)
    requires Undisturbed(cfg, Start(now), acts)
    ensures Intact(FineRun(cfg, Start(now), acts))
    ensures View(FineRun(cfg, Start(now), acts)) == Run(cfg, Empty(now), CoarseRun(cfg, Start(now), acts))
  {
    var f0 := Start(now);
    if acts == [] {
      assert Viewed(map[], map[]) == map[];
    } else {
      var front, a := acts[..|acts| - 1], acts[|acts| - 1];
      var f := FineRun(cfg, f0, front);
      RunRefines(cfg, now, front);
      StepKeepsIntactIff(cfg, f, a);
      StepRefines(cfg, f, a);
      if Coarse(f.tasks, a).Some? {
        RunOne(cfg, Empty(now), CoarseRun(cfg, f0, front), Coarse(f.tasks, a).value);
      } else {
        assert CoarseRun(cfg, f0, front) + [] == CoarseRun(cfg, f0, front);
      }
    }
  }

  /** With no row between handling and mark, the view is the state itself. */
  lemma {:induction false} SettledView(f: Fine)
    requires Settled(f)
    ensures View(f) == f.sys
  {
    assert Viewed(f.sys.repo.links, f.tasks) == f.sys.repo.links;
  }
}
