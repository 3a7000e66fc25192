/**
  The daily sweeps of cores/service.go at the grain of the source. A page of rows is read; each row
  is dropped from the cache or returned to the pool, and then gets its new status in place; and
  later the page is written back. Other steps of the service run in between.
 */
module Flight {
  import opened Collections
  import opened Links
  import opened MemoryPool
  import opened MemoryCache
  import opened Rows
  import opened Lifecycle

  /** Read; dropped or returned but not marked; marked but not written back. */
  datatype Phase = Todo | Half | Back

  /** A row of a page in flight, as it was read: to become `mark`, having expired before `before`. */
  datatype Task = Task(row: ShortLink, mark: Status, before: int, phase: Phase)

  /** The rows of all pages in flight, of any number of sweeps. */
  type Tasks = map<int, Task>

  datatype Fine = Fine(sys: Sys, tasks: Tasks)

  /** A step of the service, or one of a sweep for row `k` of a page. */
  datatype Act =
    | Do(e: Event)
    | Read(k: int, id: int, mark: Status, before: int)
    | Handle(k: int)
    | Mark(k: int)
    | Write(k: int)
    | Forget(k: int)

  /** What a row is before its mark. */
  function Source(mark: Status): Status {
    if mark == Expired then Active else Expired
  }

  /** ExpireActives compares with the time of the query, RecycleExpires with a time 365 days before its start. */
  function Threshold(mark: Status, now: int): int {
    if mark == Expired then now else now - YEAR
  }

  predicate Readable(links: map<int, ShortLink>, now: int, id: int, mark: Status, before: int) {
    && mark != Active && before <= Threshold(mark, now)
    && id in links && links[id].status == Source(mark) && links[id].expire < before
  }

  predicate IsSweep(e: Event) {
    e.ExpireOne? || e.RecycleOne?
  }

  /** Out of the cache, or back into the pool. */
  function Handled(s: Sys, t: Task): Sys {
    if t.mark == Expired then s.(cache := Dropped(s.cache, t.row.length, t.row.code))
    else s.(pools := Appended(s.pools, t.row.length, [t.row.code]))
  }

  /** The assignment through the row's pointer: a row that was deleted meanwhile is not in the map. */
  function WithMark(m: Store, id: int, mark: Status): Store {
    if id in m.links then m.(links := m.links[id := m.links[id].(status := mark)]) else m
  }

  /** Update of the same pointer: the row as it is now, and its index entry. */
  function WrittenBack(m: Store, id: int): Store {
    if id in m.links then Replaced(m, m.links[id]) else m
  }

  ghost function FineStep(cfg: Config, f: Fine, a: Act): Fine {
    match a
    case Do(e) => if IsSweep(e) then f else f.(sys := Apply(cfg, f.sys, e))
    case Read(k, id, mark, before) =>
      if k in f.tasks || !Readable(f.sys.repo.links, f.sys.now, id, mark, before) then f
      else f.(tasks := f.tasks[k := Task(f.sys.repo.links[id], mark, before, Todo)])
    case Handle(k) =>
      if k !in f.tasks || f.tasks[k].phase != Todo then f
      else Fine(Handled(f.sys, f.tasks[k]), f.tasks[k := f.tasks[k].(phase := Half)])
    case Mark(k) =>
      if k !in f.tasks || f.tasks[k].phase != Half then f
      else
        var t := f.tasks[k];
        Fine(f.sys.(repo := WithMark(f.sys.repo, t.row.id, t.mark)), f.tasks[k := t.(phase := Back)])
    case Write(k) =>
      if k !in f.tasks || f.tasks[k].phase != Back then f
      else Fine(f.sys.(repo := WrittenBack(f.sys.repo, f.tasks[k].row.id)), f.tasks - {k})
    case Forget(k) =>
      if k !in f.tasks || f.tasks[k].phase == Half then f else f.(tasks := f.tasks - {k})
  }

  ghost function FineRun(cfg: Config, f: Fine, acts: seq<Act>): Fine {
    if acts == [] then f else FineStep(cfg, FineRun(cfg, f, acts[..|acts| - 1]), acts[|acts| - 1])
  }

  // ---- what the sweeps amount to ----

  predicate Leads(m: Store, code: string, id: int) {
    code in m.codeToID && m.codeToID[code] == id
  }

  predicate Advancing(tasks: Tasks, id: int) {
    exists k :: k in tasks.Keys && tasks[k].phase == Half && tasks[k].row.id == id
  }

  function Advanced(row: ShortLink): ShortLink {
    row.(status := if row.status == Active then Expired else Recycled)
  }

  /** Rows count as marked from the moment they are dropped or returned. */
  function Viewed(links: map<int, ShortLink>, tasks: Tasks): map<int, ShortLink> {
    map id | id in links :: if Advancing(tasks, id) then Advanced(links[id]) else links[id]
  }

  function View(f: Fine): Sys {
    f.sys.(repo := f.sys.repo.(links := Viewed(f.sys.repo.links, f.tasks)))
  }

  /** The step of the service a fine step stands for. */
  function Coarse(tasks: Tasks, a: Act): Option<Event> {
    match a
    case Do(e) => if IsSweep(e) then None else Some(e)
    case Handle(k) =>
      if k !in tasks || tasks[k].phase != Todo then None
      else Some(if tasks[k].mark == Expired then ExpireOne(tasks[k].row.id) else RecycleOne(tasks[k].row.id))
    case _ => None
  }

  ghost function ApplyAny(cfg: Config, s: Sys, e: Option<Event>): Sys {
    match e
    case Some(e) => Apply(cfg, s, e)
    case None => s
  }

  ghost function CoarseRun(cfg: Config, f: Fine, acts: seq<Act>): seq<Event> {
    if acts == [] then []
    else
      var front := acts[..|acts| - 1];
      CoarseRun(cfg, f, front) +
      match Coarse(FineRun(cfg, f, front).tasks, acts[|acts| - 1]) { case Some(e) => [e] case None => [] }
  }

  /** The row is as the sweep read it where that matters, and the index leads to it. */
  ghost predicate TaskIntact(s: Sys, t: Task) {
    var m, id := s.repo, t.row.id;
    && 1 <= id < m.nextID && t.mark != Active && t.row.length == |t.row.code|
    && (t.phase == Todo ==> id in m.links && m.links[id].expire < t.before <= Threshold(t.mark, s.now))
    && (id in m.links ==>
          && m.links[id].code == t.row.code && Leads(m, t.row.code, id)
          && (t.phase != Back ==> m.links[id].status == Source(t.mark)))
  }

  /** No two sweeps have the same row before its mark. */
  ghost predicate OpenApart(tasks: Tasks) {
    forall j, k :: j in tasks && k in tasks && j != k && tasks[j].phase != Back && tasks[k].phase != Back ==>
      tasks[j].row.id != tasks[k].row.id
  }

  ghost predicate AllIntact(s: Sys, tasks: Tasks) {
    forall k :: k in tasks ==> TaskIntact(s, tasks[k])
  }

  ghost predicate Intact(f: Fine) {
    WellFormed(f.sys.repo) && AllIntact(f.sys, f.tasks) && OpenApart(f.tasks)
  }

  predicate InFlight(f: Fine, code: string) {
    exists k :: k in f.tasks.Keys && f.tasks[k].row.code == code && f.tasks[k].row.id in f.sys.repo.links
  }

  /**
    No link is created or added under the code of a row in flight; a row that was read but not yet
    handled is not removed, and no update takes it out of the sweep's reach; and no sweep reads a row
    that another has not yet marked, or that is not the one its code leads to.
   */
  predicate FlightGuard(cfg: Config, f: Fine, a: Act) {
    match a
    case Do(Create(length, _, _, _)) => 1 <= length <= cfg.max ==> !InFlight(f, Oldest(f.sys.pools, length))
    case Do(Add(code, _, _, _)) => !InFlight(f, code)
    case Do(Update(code, _, _, expire)) =>
      forall k :: k in f.tasks.Keys && f.tasks[k].phase == Todo && f.tasks[k].row.code == code ==>
        expire < f.tasks[k].before
    case Do(Remove(code)) => forall k :: k in f.tasks.Keys && f.tasks[k].phase == Todo ==> f.tasks[k].row.code != code
    case Read(k, id, mark, before) =>
      k !in f.tasks && Readable(f.sys.repo.links, f.sys.now, id, mark, before) ==>
        && Leads(f.sys.repo, f.sys.repo.links[id].code, id)
        && forall j :: j in f.tasks.Keys && f.tasks[j].phase != Back ==> f.tasks[j].row.id != id
    case _ => true
  }

  /** A row of the length was returned to the pool and is not yet marked, and its code is one of `codes`. */
  predicate HalfReturned(tasks: Tasks, links: map<int, ShortLink>, length: int, codes: seq<string>) {
    exists k :: k in tasks.Keys && tasks[k].phase == Half && tasks[k].mark == Recycled && tasks[k].row.length == length
             && tasks[k].row.id in links && tasks[k].row.code in codes
  }

  /** A rebuild does not meet a row between its return to the pool and its mark, if its code was issued. */
  predicate RebuildGuard(cfg: Config, f: Fine, a: Act) {
    match a
    case Do(Rebuild(length)) =>
      1 <= length <= cfg.max ==> !HalfReturned(f.tasks, f.sys.repo.links, length, Issued(cfg, f.sys.repo, length))
    case _ => true
  }

  ghost predicate Undisturbed(cfg: Config, f: Fine, acts: seq<Act>) {
    acts != [] ==>
      var front, a := acts[..|acts| - 1], acts[|acts| - 1];
      && Undisturbed(cfg, f, front)
      && FlightGuard(cfg, FineRun(cfg, f, front), a) && RebuildGuard(cfg, FineRun(cfg, f, front), a)
  }

  /** No row is between its handling and its mark. */
  predicate Settled(f: Fine) {
    forall k :: k in f.tasks.Keys ==> f.tasks[k].phase != Half
  }
}
