/** A page of a sweep that runs alone: the steps of the source in their order, and what they amount to. */
module PageGrain {
  import opened Collections
  import opened Links
  import opened Lifecycle
  import opened Sweeps
  import opened Flight

  function ReadActs(rows: seq<ShortLink>, mark: Status, before: int): seq<Act> {
    if rows == [] then []
    else
      var last := rows[|rows| - 1];
      ReadActs(rows[..|rows| - 1], mark, before) + [Read(last.id, last.id, mark, before)]
  }

  function HandleActs(rows: seq<ShortLink>): seq<Act> {
    if rows == [] then []
    else HandleActs(rows[..|rows| - 1]) + [Handle(rows[|rows| - 1].id)] + [Mark(rows[|rows| - 1].id)]
  }

  function WriteActs(rows: seq<ShortLink>): seq<Act> {
    if rows == [] then [] else WriteActs(rows[..|rows| - 1]) + [Write(rows[|rows| - 1].id)]
  }

  /** Read the page; drop or return each row and mark it; write the page back. */
  function PageActs(rows: seq<ShortLink>, mark: Status, before: int): seq<Act> {
    ReadActs(rows, mark, before) + HandleActs(rows) + WriteActs(rows)
  }

  function InPhase(rows: seq<ShortLink>, mark: Status, before: int, phase: Phase): Tasks {
    if rows == [] then map[]
    else
      var last := rows[|rows| - 1];
      InPhase(rows[..|rows| - 1], mark, before, phase)[last.id := Task(last, mark, before, phase)]
  }

  ghost predicate PageOf(s: Sys, rows: seq<ShortLink>, mark: Status, before: int) {
    && Distinct(Ids(rows)) && RowsOf(s.repo.links, rows)
    && forall i :: 0 <= i < |rows| ==> Readable(s.repo.links, s.now, rows[i].id, mark, before)
  }

  function HandledAll(s: Sys, rows: seq<ShortLink>, mark: Status): Sys {
    if mark == Expired then s.(cache := DroppedAll(s.cache, rows)) else s.(pools := ReturnedAll(s.pools, rows))
  }

  function MarkedAll(m: Store, rows: seq<ShortLink>, mark: Status): Store {
    if rows == [] then m else WithMark(MarkedAll(m, rows[..|rows| - 1], mark), rows[|rows| - 1].id, mark)
  }

  function WrittenAll(m: Store, rows: seq<ShortLink>): Store {
    if rows == [] then m else WrittenBack(WrittenAll(m, rows[..|rows| - 1]), rows[|rows| - 1].id)
  }

  lemma {:induction false} FineRunAppend(cfg: Config, f: Fine, a: seq<Act>, b: seq<Act>)
    ensures FineRun(cfg, f, a + b) == FineRun(cfg, FineRun(cfg, f, a), b)
  {
    if b == [] {
      assert a + b == a;
    } else {
      FineRunAppend(cfg, f, a, b[..|b| - 1]);
      assert (a + b)[..|a + b| - 1] == a + b[..|b| - 1];
    }
  }

  lemma {:induction false} FineRunOne(cfg: Config, f: Fine, acts: seq<Act>, a: Act)
    ensures FineRun(cfg, f, acts + [a]) == FineStep(cfg, FineRun(cfg, f, acts), a)
  {
    assert (acts + [a])[..|acts|] == acts;
  }

  lemma {:induction false} DistinctFront(rows: seq<ShortLink>)
    requires Distinct(Ids(rows)) && rows != []
    ensures Distinct(Ids(rows[..|rows| - 1]))
    ensures forall i :: 0 <= i < |rows| - 1 ==> rows[i].id != rows[|rows| - 1].id
  {
    var ids := Ids(rows);
    assert forall i :: 0 <= i < |rows| - 1 ==> ids[i] != ids[|rows| - 1];
    assert Ids(rows[..|rows| - 1]) == ids[..|rows| - 1];
  }

  lemma {:induction false} InPhaseKeys(rows: seq<ShortLink>, mark: Status, before: int, phase: Phase)
    ensures forall id :: id in InPhase(rows, mark, before, phase) <==> id in Ids(rows)
    ensures Distinct(Ids(rows)) ==> forall i :: 0 <= i < |rows| ==>
      InPhase(rows, mark, before, phase)[rows[i].id] == Task(rows[i], mark, before, phase)
  {
    if rows != [] {
      var front := rows[..|rows| - 1];
      InPhaseKeys(front, mark, before, phase);
      if Distinct(Ids(rows)) {
        DistinctFront(rows);
        forall i | 0 <= i < |rows|
          ensures InPhase(rows, mark, before, phase)[rows[i].id] == Task(rows[i], mark, before, phase)
        {
          if i < |front| { assert rows[i] == front[i]; }
        }
      }
    }
  }

  lemma {:induction false} ReadsRun(cfg: Config, s: Sys, rows: seq<ShortLink>, mark: Status, before: int)
    requires PageOf(s, rows, mark, before)
    ensures FineRun(cfg, Fine(s, map[]), ReadActs(rows, mark, before)) == Fine(s, InPhase(rows, mark, before, Todo))
  {
    if rows != [] {
      var front, last := rows[..|rows| - 1], rows[|rows| - 1];
      DistinctFront(rows);
      assert RowsOf(s.repo.links, front);
      ReadsRun(cfg, s, front, mark, before);
      FineRunOne(cfg, Fine(s, map[]), ReadActs(front, mark, before), Read(last.id, last.id, mark, before));
      InPhaseKeys(front, mark, before, Todo);
      assert last.id !in Ids(front) by {
        forall i | 0 <= i < |front| ensures Ids(front)[i] != last.id { assert rows[i] == front[i]; }
      }
    }
  }

  lemma {:induction false} OneHandled(cfg: Config, s: Sys, tasks: Tasks, row: ShortLink, mark: Status, before: int)
    requires row.id in tasks && tasks[row.id] == Task(row, mark, before, Todo)
    ensures FineStep(cfg, FineStep(cfg, Fine(s, tasks), Handle(row.id)), Mark(row.id)) ==
      Fine(Handled(s, Task(row, mark, before, Todo)).(repo := WithMark(s.repo, row.id, mark)),
           tasks[row.id := Task(row, mark, before, Back)])
  {
    var f := FineStep(cfg, Fine(s, tasks), Handle(row.id));
    assert f.tasks[row.id] == Task(row, mark, before, Half) && f.sys.repo == s.repo;
    assert f.tasks[row.id := Task(row, mark, before, Back)] == tasks[row.id := Task(row, mark, before, Back)];
  }

  lemma {:induction false} LaterId(rows: seq<ShortLink>, n: nat)
    requires Distinct(Ids(rows)) && 1 <= n <= |rows|
    ensures Ids(rows[..n]) == Ids(rows[..n - 1]) + [rows[n - 1].id]
    ensures rows[n - 1].id !in Ids(rows[..n - 1]) && rows[n - 1].id in Ids(rows)
  {
    assert Ids(rows[..n - 1]) == Ids(rows)[..n - 1];
    assert Ids(rows)[n - 1] == rows[n - 1].id;
  }

  /** After the first `n` rows of the page have been handled and marked. */
  function HandledState(s: Sys, rows: seq<ShortLink>, mark: Status, before: int, n: nat): Fine
    requires n <= |rows|
  {
    Fine(HandledAll(s, rows[..n], mark).(repo := MarkedAll(s.repo, rows[..n], mark)),
         InPhase(rows, mark, before, Todo) + InPhase(rows[..n], mark, before, Back))
  }

  lemma {:induction false} StillTodo(rows: seq<ShortLink>, mark: Status, before: int, n: nat)
    requires Distinct(Ids(rows)) && 1 <= n <= |rows|
    ensures var tasks := InPhase(rows, mark, before, Todo) + InPhase(rows[..n - 1], mark, before, Back);
      rows[n - 1].id in tasks && tasks[rows[n - 1].id] == Task(rows[n - 1], mark, before, Todo)
  {
    InPhaseKeys(rows, mark, before, Todo);
    InPhaseKeys(rows[..n - 1], mark, before, Back);
    LaterId(rows, n);
  }

  lemma {:induction false} PutLast<K, V>(a: map<K, V>, b: map<K, V>, k: K, v: V)
    ensures (a + b)[k := v] == a + b[k := v]
  {
  }

  lemma {:induction false} HandledGrows(s: Sys, rows: seq<ShortLink>, mark: Status, before: int)
    requires rows != [] && mark != Active
    ensures var front, last := rows[..|rows| - 1], rows[|rows| - 1];
      HandledAll(s, rows, mark).(repo := MarkedAll(s.repo, rows, mark)) ==
        Handled(HandledAll(s, front, mark).(repo := MarkedAll(s.repo, front, mark)), Task(last, mark, before, Todo))
          .(repo := WithMark(MarkedAll(s.repo, front, mark), last.id, mark))
  {
  }

  lemma {:induction false} HandleNext(cfg: Config, s: Sys, rows: seq<ShortLink>, mark: Status, before: int, n: nat)
    requires Distinct(Ids(rows)) && 1 <= n <= |rows| && mark != Active
    ensures var id := rows[n - 1].id;
      FineStep(cfg, FineStep(cfg, HandledState(s, rows, mark, before, n - 1), Handle(id)), Mark(id))
        == HandledState(s, rows, mark, before, n)
  {
    var f, part, last := HandledState(s, rows, mark, before, n - 1), rows[..n], rows[n - 1];
    assert part[..n - 1] == rows[..n - 1] && part[n - 1] == last;
    StillTodo(rows, mark, before, n);
    OneHandled(cfg, f.sys, f.tasks, last, mark, before);
    HandledGrows(s, part, mark, before);
    PutLast(InPhase(rows, mark, before, Todo), InPhase(rows[..n - 1], mark, before, Back),
      last.id, Task(last, mark, before, Back));
  }

  lemma {:induction false} HandlesRun(cfg: Config, s: Sys, rows: seq<ShortLink>, mark: Status, before: int, n: nat)
    requires Distinct(Ids(rows)) && n <= |rows| && mark != Active
    ensures FineRun(cfg, Fine(s, InPhase(rows, mark, before, Todo)), HandleActs(rows[..n]))
      == HandledState(s, rows, mark, before, n)
  {
    var f0 := Fine(s, InPhase(rows, mark, before, Todo));
    if n == 0 {
      assert InPhase(rows, mark, before, Todo) + map[] == InPhase(rows, mark, before, Todo);
    } else {
      var part, last, acts := rows[..n], rows[n - 1], HandleActs(rows[..n - 1]);
      assert part[..n - 1] == rows[..n - 1] && part[n - 1] == last;
      HandlesRun(cfg, s, rows, mark, before, n - 1);
      FineRunOne(cfg, f0, acts, Handle(last.id));
      FineRunOne(cfg, f0, acts + [Handle(last.id)], Mark(last.id));
      HandleNext(cfg, s, rows, mark, before, n);
    }
  }

  /** After the first `n` rows of the page have been written back. */
  ghost function WrittenState(s: Sys, rows: seq<ShortLink>, mark: Status, before: int, n: nat): Fine
    requires n <= |rows|
  {
    Fine(s.(repo := WrittenAll(s.repo, rows[..n])), InPhase(rows, mark, before, Back) - Elements(Ids(rows[..n])))
  }

  lemma {:induction false} DropLast<V>(a: map<int, V>, ids: seq<int>, id: int)
    ensures a - Elements(ids) - {id} == a - Elements(ids + [id])
  {
    assert Elements(ids + [id]) == Elements(ids) + {id};
  }

  lemma {:induction false} StillBack(rows: seq<ShortLink>, mark: Status, before: int, n: nat)
    requires Distinct(Ids(rows)) && 1 <= n <= |rows|
    ensures var tasks := InPhase(rows, mark, before, Back) - Elements(Ids(rows[..n - 1]));
      rows[n - 1].id in tasks && tasks[rows[n - 1].id] == Task(rows[n - 1], mark, before, Back)
  {
    InPhaseKeys(rows, mark, before, Back);
    LaterId(rows, n);
    assert rows[n - 1].id !in Elements(Ids(rows[..n - 1]));
  }

  lemma {:induction false} WriteNext(cfg: Config, s: Sys, rows: seq<ShortLink>, mark: Status, before: int, n: nat)
    requires Distinct(Ids(rows)) && 1 <= n <= |rows|
    ensures FineStep(cfg, WrittenState(s, rows, mark, before, n - 1), Write(rows[n - 1].id))
      == WrittenState(s, rows, mark, before, n)
  {
    var part, last := rows[..n], rows[n - 1];
    assert part[..n - 1] == rows[..n - 1] && part[n - 1] == last;
    StillBack(rows, mark, before, n);
    LaterId(rows, n);
    DropLast(InPhase(rows, mark, before, Back), Ids(rows[..n - 1]), last.id);
  }

  lemma {:induction false} WritesRun(cfg: Config, s: Sys, rows: seq<ShortLink>, mark: Status, before: int, n: nat)
    requires Distinct(Ids(rows)) && n <= |rows|
    ensures FineRun(cfg, Fine(s, InPhase(rows, mark, before, Back)), WriteActs(rows[..n]))
      == WrittenState(s, rows, mark, before, n)
  {
    var f0 := Fine(s, InPhase(rows, mark, before, Back));
    if n == 0 {
      assert Elements(Ids(rows[..0])) == {} && f0.tasks - {} == f0.tasks;
    } else {
      var part, last := rows[..n], rows[n - 1];
      assert part[..n - 1] == rows[..n - 1] && part[n - 1] == last;
      WritesRun(cfg, s, rows, mark, before, n - 1);
      FineRunOne(cfg, f0, WriteActs(rows[..n - 1]), Write(last.id));
      WriteNext(cfg, s, rows, mark, before, n);
    }
  }

  /** The page as the methods of the service leave it. */
  function PageDone(s: Sys, rows: seq<ShortLink>, mark: Status): Sys {
    if mark == Expired then ExpiredPage(s, rows) else RecycledPage(s, rows)
  }

  function IndexAll(codeToID: map<string, int>, rows: seq<ShortLink>): map<string, int> {
    if rows == [] then codeToID
    else IndexAll(codeToID, rows[..|rows| - 1])[rows[|rows| - 1].code := rows[|rows| - 1].id]
  }

  lemma {:induction false} MarkedRowAt(m: Store, rows: seq<ShortLink>, mark: Status, id: int)
    ensures MarkedAll(m, rows, mark).links.Keys == m.links.Keys
    ensures MarkedAll(m, rows, mark) == m.(links := MarkedAll(m, rows, mark).links)
    ensures id in m.links ==>
      MarkedAll(m, rows, mark).links[id] == if id in Ids(rows) then m.links[id].(status := mark) else m.links[id]
  {
    if rows != [] {
      MarkedRowAt(m, rows[..|rows| - 1], mark, id);
      assert Ids(rows) == Ids(rows[..|rows| - 1]) + [rows[|rows| - 1].id];
    }
  }

  /** Writing the marked rows marks them and indexes them. */
  lemma {:induction false} ReplacedMarks(m: Store, rows: seq<ShortLink>, mark: Status)
    requires Distinct(Ids(rows)) && RowsOf(m.links, rows)
    ensures ReplacedAll(m, Marked(rows, mark)) == MarkedAll(m, rows, mark).(codeToID := IndexAll(m.codeToID, rows))
  {
    if rows == [] {
      assert Marked(rows, mark) == [];
    } else {
      var front, last := rows[..|rows| - 1], rows[|rows| - 1];
      LaterId(rows, |rows|);
      assert rows[..|rows|] == rows && Distinct(Ids(front)) by { DistinctFront(rows); }
      assert RowsOf(m.links, front);
      ReplacedMarks(m, front, mark);
      MarkedNext(m, rows, mark);
      MarkedRowAt(m, front, mark, last.id);
    }
  }

  /** Writing rows back as they are only indexes them. */
  lemma {:induction false} WrittenIndexes(m: Store, rows: seq<ShortLink>)
    requires forall i :: 0 <= i < |rows| ==>
      rows[i].id in m.links && m.links[rows[i].id].id == rows[i].id && m.links[rows[i].id].code == rows[i].code
    ensures WrittenAll(m, rows) == m.(codeToID := IndexAll(m.codeToID, rows))
  {
    if rows != [] {
      var front, last := rows[..|rows| - 1], rows[|rows| - 1];
      WrittenIndexes(m, front);
      assert m.links[last.id := m.links[last.id]] == m.links;
    }
  }

  /** Marking in place and then writing back is writing the marked rows. */
  lemma {:induction false} MarkThenWrite(m: Store, rows: seq<ShortLink>, mark: Status)
    requires Distinct(Ids(rows)) && RowsOf(m.links, rows)
    ensures WrittenAll(MarkedAll(m, rows, mark), rows) == ReplacedAll(m, Marked(rows, mark))
  {
    var marked := MarkedAll(m, rows, mark);
    MarkedRowAt(m, rows, mark, 0);
    forall i | 0 <= i < |rows|
      ensures rows[i].id in marked.links && marked.links[rows[i].id].id == rows[i].id
        && marked.links[rows[i].id].code == rows[i].code
    {
      MarkedRowAt(m, rows, mark, rows[i].id);
    }
    WrittenIndexes(marked, rows);
    ReplacedMarks(m, rows, mark);
  }

  lemma {:induction false} InPhaseKey(rows: seq<ShortLink>, mark: Status, before: int, phase: Phase, id: int)
    ensures id in InPhase(rows, mark, before, phase) <==> id in Ids(rows)
  {
    if rows != [] {
      InPhaseKey(rows[..|rows| - 1], mark, before, phase, id);
      assert Ids(rows) == Ids(rows[..|rows| - 1]) + [rows[|rows| - 1].id];
    }
  }

  lemma {:induction false} AllBack(rows: seq<ShortLink>, mark: Status, before: int)
    ensures InPhase(rows, mark, before, Todo) + InPhase(rows[..|rows|], mark, before, Back)
      == InPhase(rows, mark, before, Back)
  {
    assert rows[..|rows|] == rows;
    var a, b := InPhase(rows, mark, before, Todo), InPhase(rows, mark, before, Back);
    forall id ensures id in a <==> id in b {
      InPhaseKey(rows, mark, before, Todo, id);
      InPhaseKey(rows, mark, before, Back, id);
    }
  }

  lemma {:induction false} NoneLeft(rows: seq<ShortLink>, mark: Status, before: int)
    ensures InPhase(rows, mark, before, Back) - Elements(Ids(rows[..|rows|])) == map[]
  {
    assert rows[..|rows|] == rows;
    var a, gone := InPhase(rows, mark, before, Back), Elements(Ids(rows));
    forall id ensures id in a ==> id in gone {
      InPhaseKey(rows, mark, before, Back, id);
    }
    assert (a - gone).Keys == {};
  }

  /** A page alone leaves the state that the methods ExpirePage and RecyclePage ensure, and nothing in flight. */
  lemma {:induction false} PageAlone(cfg: Config, s: Sys, rows: seq<ShortLink>, mark: Status, before: int)
    requires PageOf(s, rows, mark, before) && mark != Active
    ensures FineRun(cfg, Fine(s, map[]), PageActs(rows, mark, before)) == Fine(PageDone(s, rows, mark), map[])
  {
    var f0, n := Fine(s, map[]), |rows|;
    assert rows[..n] == rows;
    var read := ReadActs(rows, mark, before);
    ReadsRun(cfg, s, rows, mark, before);
    HandlesRun(cfg, s, rows, mark, before, n);
    FineRunAppend(cfg, f0, read, HandleActs(rows));
    FineRunAppend(cfg, f0, read + HandleActs(rows), WriteActs(rows));
    AllBack(rows, mark, before);
    var t := HandledAll(s, rows, mark).(repo := MarkedAll(s.repo, rows, mark));
    WritesRun(cfg, t, rows, mark, before, n);
    NoneLeft(rows, mark, before);
    MarkThenWrite(s.repo, rows, mark);
  }
}
