/** The paging loops of ExpireActives and RecycleExpires. */
module Sweeps {
  import opened Collections
  import opened Links
  import opened MemoryPool
  import opened MemoryCache
  import opened Lifecycle

  function Marked(rows: seq<ShortLink>, status: Status): (r: seq<ShortLink>)
    ensures |r| == |rows| && forall i :: 0 <= i < |rows| ==> r[i] == rows[i].(status := status)
  {
    if rows == [] then [] else Marked(rows[..|rows| - 1], status) + [rows[|rows| - 1].(status := status)]
  }

  function DroppedAll(cache: Cache, rows: seq<ShortLink>): Cache {
    if rows == [] then cache
    else Dropped(DroppedAll(cache, rows[..|rows| - 1]), rows[|rows| - 1].length, rows[|rows| - 1].code)
  }

  function ReturnedAll(pools: Pools, rows: seq<ShortLink>): Pools {
    if rows == [] then pools
    else Appended(ReturnedAll(pools, rows[..|rows| - 1]), rows[|rows| - 1].length, [rows[|rows| - 1].code])
  }

  function ExpireEvents(rows: seq<ShortLink>): seq<Event> {
    if rows == [] then [] else ExpireEvents(rows[..|rows| - 1]) + [ExpireOne(rows[|rows| - 1].id)]
  }

  function RecycleEvents(rows: seq<ShortLink>): seq<Event> {
    if rows == [] then [] else RecycleEvents(rows[..|rows| - 1]) + [RecycleOne(rows[|rows| - 1].id)]
  }

  /** Rows outside those written keep their value. */
  lemma {:induction false} UntouchedRows(m: Store, rows: seq<ShortLink>, id: int)
    requires AllStored(m, rows) && id in m.links
    ensures ReplacedAll(m, rows).links[id] == m.links[id] || id in Ids(rows)
    ensures forall i :: 0 <= i < |rows| && Distinct(Ids(rows)) ==> ReplacedAll(m, rows).links[rows[i].id] == rows[i]
  {
    if rows != [] {
      var front, last := rows[..|rows| - 1], rows[|rows| - 1];
      assert Ids(rows) == Ids(front) + [last.id];
      assert forall i :: 0 <= i < |front| ==> Ids(rows)[i] == front[i].id;
      UntouchedRows(m, front, id);
      assert Distinct(Ids(rows)) ==> Distinct(Ids(front)) && forall i :: 0 <= i < |front| ==> front[i].id != last.id;
    }
  }

  /** Rows of one page: stored as read, distinct, of one status and all due. */
  ghost predicate DuePage(links: map<int, ShortLink>, rows: seq<ShortLink>, status: Status, before: int) {
    && RowsOf(links, rows) && Distinct(Ids(rows))
    && forall i :: 0 <= i < |rows| ==> rows[i].status == status && rows[i].expire < before
  }

  lemma {:induction false} DuePageFront(links: map<int, ShortLink>, rows: seq<ShortLink>, status: Status, before: int)
    requires rows != [] && DuePage(links, rows, status, before)
    ensures DuePage(links, rows[..|rows| - 1], status, before)
    ensures rows[|rows| - 1].id !in Ids(rows[..|rows| - 1])
  {
    assert Ids(rows) == Ids(rows[..|rows| - 1]) + [rows[|rows| - 1].id];
  }

  /** Dropping a page from the cache and then writing it back marked is expiring its rows one by one. */
  lemma {:induction false} PageExpires(cfg: Config, s: Sys, rows: seq<ShortLink>)
    requires DuePage(s.repo.links, rows, Active, s.now)
    ensures Run(cfg, s, ExpireEvents(rows)) == ExpiredPage(s, rows)
  {
    if rows != [] {
      var front, last := rows[..|rows| - 1], rows[|rows| - 1];
      DuePageFront(s.repo.links, rows, Active, s.now);
      PageExpires(cfg, s, front);
      MarkedNext(s.repo, rows, Expired);
      RunOne(cfg, s, ExpireEvents(front), ExpireOne(last.id));
      ExpireNext(Run(cfg, s, ExpireEvents(front)), last);
    }
  }

  lemma {:induction false} ExpireNext(s: Sys, row: ShortLink)
    requires row.id in s.repo.links && s.repo.links[row.id] == row && row.status == Active && row.expire < s.now
    ensures ExpireLink(s, row.id)
      == s.(cache := Dropped(s.cache, row.length, row.code), repo := Replaced(s.repo, row.(status := Expired)))
  {
  }

  /** Returning a page to the pools and then writing it back marked is recycling its rows one by one. */
  lemma {:induction false} PageRecycles(cfg: Config, s: Sys, rows: seq<ShortLink>)
    requires DuePage(s.repo.links, rows, Expired, s.now - YEAR)
    ensures Run(cfg, s, RecycleEvents(rows)) == RecycledPage(s, rows)
  {
    if rows != [] {
      var front, last := rows[..|rows| - 1], rows[|rows| - 1];
      DuePageFront(s.repo.links, rows, Expired, s.now - YEAR);
      PageRecycles(cfg, s, front);
      MarkedNext(s.repo, rows, Recycled);
      RunOne(cfg, s, RecycleEvents(front), RecycleOne(last.id));
      RecycleNext(Run(cfg, s, RecycleEvents(front)), last);
    }
  }

  lemma {:induction false} RecycleNext(s: Sys, row: ShortLink)
    requires row.id in s.repo.links && s.repo.links[row.id] == row && row.status == Expired && row.expire < s.now - YEAR
    ensures RecycleLink(s, row.id)
      == s.(pools := Appended(s.pools, row.length, [row.code]), repo := Replaced(s.repo, row.(status := Recycled)))
  {
  }

  lemma {:induction false} MarkedNext(m: Store, rows: seq<ShortLink>, status: Status)
    requires rows != [] && RowsOf(m.links, rows) && rows[|rows| - 1].id !in Ids(rows[..|rows| - 1])
    ensures var front, last := rows[..|rows| - 1], rows[|rows| - 1];
      && ReplacedAll(m, Marked(rows, status))
        == Replaced(ReplacedAll(m, Marked(front, status)), last.(status := status))
      && last.id in ReplacedAll(m, Marked(front, status)).links
      && ReplacedAll(m, Marked(front, status)).links[last.id] == last
  {
    var front, last := rows[..|rows| - 1], rows[|rows| - 1];
    assert Marked(rows, status)[..|rows| - 1] == Marked(front, status);
    assert AllStored(m, Marked(front, status));
    UntouchedRows(m, Marked(front, status), last.id);
    assert Ids(Marked(front, status)) == Ids(front);
  }

  // ---- how far a sweep has come ----

  /** `done` are rows that were due in `before`; they and only they have changed, to the mark. */
  ghost predicate Swept(was: map<int, ShortLink>, links: map<int, ShortLink>, done: seq<int>, due: set<int>,
          mark: Status) {
    && Distinct(done) && Elements(done) <= due && due <= was.Keys && links.Keys == was.Keys
    && forall id :: id in was ==> links[id] == if id in done then was[id].(status := mark) else was[id]
  }

  /** All rows of `due` at or before `from` are done. */
  ghost predicate DoneUpTo(due: set<int>, done: seq<int>, from: int) {
    forall id :: id in due && id <= from ==> id in done
  }

  lemma {:induction false} StillDue(was: map<int, ShortLink>, links: map<int, ShortLink>, done: seq<int>,
          status: Status, mark: Status, before: int)
    requires Swept(was, links, done, Due(was, status, before), mark) && status != mark
    ensures Due(links, status, before) == Due(was, status, before) - Elements(done)
  {
    forall id ensures id in Due(links, status, before) <==> id in Due(was, status, before) && id !in Elements(done) {
      if id in was.Keys { assert links[id] == if id in done then was[id].(status := mark) else was[id]; }
    }
  }

  lemma {:induction false} DueGrows(links: map<int, ShortLink>, status: Status, t0: int, t1: int)
    requires t0 <= t1
    ensures Due(links, status, t0) <= Due(links, status, t1)
  {
  }

  // ---- one page further ----

  lemma {:induction false} PageIsDue(links: map<int, ShortLink>, rows: seq<ShortLink>, from: int, limit: nat,
          ordered: bool, status: Status, before: int)
    requires RowsOf(links, rows) && IsPage(After(Due(links, status, before), from), limit, ordered, Ids(rows))
    ensures DuePage(links, rows, status, before)
  {
    forall i | 0 <= i < |rows| ensures rows[i].status == status && rows[i].expire < before {
      assert Ids(rows)[i] in Elements(Ids(rows));
    }
  }

  lemma {:induction false} PageSwept(was: map<int, ShortLink>, m: Store, done: seq<int>, rows: seq<ShortLink>,
          status: Status, mark: Status, before: int)
    requires Swept(was, m.links, done, Due(was, status, before), mark) && status != mark
    requires DuePage(m.links, rows, status, before)
    ensures Swept(was, ReplacedAll(m, Marked(rows, mark)).links, done + Ids(rows), Due(was, status, before), mark)
  {
    StillDue(was, m.links, done, status, mark, before);
    var links, ids := ReplacedAll(m, Marked(rows, mark)).links, Ids(rows);
    assert Ids(Marked(rows, mark)) == ids && AllStored(m, Marked(rows, mark));
    forall id | id in ids ensures id in Due(m.links, status, before) && id !in done {
      var i :| 0 <= i < |rows| && ids[i] == id;
      assert rows[i].id in m.links && id in Due(m.links, status, before);
    }
    DistinctAppend(done, ids);
    forall id | id in was ensures links[id] == if id in done + ids then was[id].(status := mark) else was[id] {
      UntouchedRows(m, Marked(rows, mark), id);
      if id in ids {
        var i :| 0 <= i < |rows| && ids[i] == id;
        assert Marked(rows, mark)[i].id == id && m.links[id] == rows[i];
        assert m.links[id] == was[id];
      }
    }
  }

  /** In ID order everything due up to the last row of a page is done once the page is. */
  lemma {:induction false} PageReaches(due: set<int>, left: set<int>, done: seq<int>, from: int, limit: nat,
          page: seq<int>)
    requires DoneUpTo(due, done, from) && due - Elements(done) <= left && page != []
    requires IsPage(After(left, from), limit, true, page)
    ensures DoneUpTo(due, done + page, page[|page| - 1])
  {
    forall id | id in due && id <= page[|page| - 1] ensures id in done + page {
      if id > from && id !in done {
        assert id in left && id in After(left, from);
      }
    }
  }

  /** Whatever the order, the first page is everything when no more than a page is due. */
  lemma {:induction false} FirstPageIsAll(due: set<int>, from: int, limit: nat, ordered: bool, page: seq<int>)
    requires IsPage(After(due, from), limit, ordered, page) && |due| <= limit
    requires forall id :: id in due ==> id > from
    ensures due == Elements(page)
  {
    assert After(due, from) == due;
    DistinctSize(page);
    if |page| == limit {
      SubsetOfSize(Elements(page), due);
    }
  }

  lemma {:induction false} SubsetOfSize(a: set<int>, b: set<int>)
    requires a <= b && |b| <= |a|
    ensures a == b
  {
    assert b == a + (b - a);
  }

  /** Nothing is left beyond the position when a page comes back empty. */
  lemma {:induction false} EmptyPage(left: set<int>, from: int, limit: nat, ordered: bool)
    requires limit >= 1 && IsPage(After(left, from), limit, ordered, [])
    ensures forall id :: id in left ==> id <= from
  {
    assert After(left, from) <= Elements<int>([]) == {};
    assert forall id :: id in left && id > from ==> id in After(left, from);
  }

  lemma {:induction false} PageAdvances(left: set<int>, from: int, limit: nat, ordered: bool, page: seq<int>)
    requires IsPage(After(left, from), limit, ordered, page) && page != []
    ensures page[|page| - 1] > from && page[|page| - 1] in left
  {
    assert page[|page| - 1] in Elements(page);
  }

  lemma {:induction false} AfterShrinks(ids: set<int>, from: int, last: int)
    requires last in ids && last > from
    ensures After(ids, last) < After(ids, from)
  {
    assert last in After(ids, from) && last !in After(ids, last);
  }

  /** Where the loop stands between two pages. */
  ghost predicate Progress(was: map<int, ShortLink>, links: map<int, ShortLink>, done: seq<int>, from: int,
          limit: nat, ordered: bool, status: Status, mark: Status, due: set<int>, before: int)
  {
    && Swept(was, links, done, Due(was, status, before), mark) && status != mark
    && due <= Due(was, status, before) && (forall id :: id in was ==> id > 0) && from >= 0
    && (ordered ==> DoneUpTo(due, done, from))
    && (from == 0 ==> done == [])
    && (from > 0 && |Due(was, status, before)| <= limit ==> due <= Elements(done))
  }

  lemma {:induction false} LaterProgress(was: map<int, ShortLink>, links: map<int, ShortLink>, done: seq<int>,
          from: int, limit: nat, ordered: bool, status: Status, mark: Status, due: set<int>, before: int, later: int)
    requires Progress(was, links, done, from, limit, ordered, status, mark, due, before) && before <= later
    ensures Progress(was, links, done, from, limit, ordered, status, mark, due, later)
  {
    DueGrows(was, status, before, later);
    SubsetSize(Due(was, status, before), Due(was, status, later));
  }

  lemma {:induction false} NextProgress(was: map<int, ShortLink>, m: Store, done: seq<int>, from: int, limit: nat,
          ordered: bool, status: Status, mark: Status, due: set<int>, before: int, rows: seq<ShortLink>)
    requires Progress(was, m.links, done, from, limit, ordered, status, mark, due, before) && limit >= 1 && rows != []
    requires RowsOf(m.links, rows) && IsPage(After(Due(m.links, status, before), from), limit, ordered, Ids(rows))
    ensures DuePage(m.links, rows, status, before)
    ensures var last := rows[|rows| - 1].id;
      && last > from && last in m.links
      && Progress(was, ReplacedAll(m, Marked(rows, mark)).links, done + Ids(rows), last, limit,
                  ordered, status, mark, due, before)
  {
    var left, page := Due(m.links, status, before), Ids(rows);
    PageIsDue(m.links, rows, from, limit, ordered, status, before);
    PageSwept(was, m, done, rows, status, mark, before);
    StillDue(was, m.links, done, status, mark, before);
    PageAdvances(left, from, limit, ordered, page);
    if ordered { PageReaches(due, left, done, from, limit, page); }
    if |Due(was, status, before)| <= limit {
      assert Elements(done) <= Elements(done + page) && Elements(page) <= Elements(done + page);
      if from == 0 {
        assert left == Due(was, status, before);
        FirstPageIsAll(left, from, limit, ordered, page);
      }
    }
  }

  /** At the empty page: in ID order, or when all due rows fit one page, everything due is done. */
  lemma {:induction false} FinalProgress(was: map<int, ShortLink>, links: map<int, ShortLink>, done: seq<int>,
          from: int, limit: nat, ordered: bool, status: Status, mark: Status, due: set<int>, before: int)
    requires Progress(was, links, done, from, limit, ordered, status, mark, due, before) && limit >= 1
    requires IsPage(After(Due(links, status, before), from), limit, ordered, [])
    ensures ordered || |Due(was, status, before)| <= limit ==> due <= Elements(done)
  {
    StillDue(was, links, done, status, mark, before);
    EmptyPage(Due(links, status, before), from, limit, ordered);
    if ordered || from == 0 {
      forall id | id in due ensures id in Elements(done) {
        if id !in done { assert id in Due(links, status, before); }
      }
    }
  }

  // ---- the two sweeps of the service ----

  /** A page of ExpireActives: rows out of the cache and written back as Expired. */
  function ExpiredPage(s: Sys, rows: seq<ShortLink>): Sys {
    s.(cache := DroppedAll(s.cache, rows), repo := ReplacedAll(s.repo, Marked(rows, Expired)))
  }

  /** A page of RecycleExpires: codes back into the pools, rows written back as Recycled. */
  function RecycledPage(s: Sys, rows: seq<ShortLink>): Sys {
    s.(pools := ReturnedAll(s.pools, rows), repo := ReplacedAll(s.repo, Marked(rows, Recycled)))
  }

  /** ExpireActives began in `s0` and is in `s` between two pages, by the steps of `trace`. */
  ghost predicate Expiring(cfg: Config, s0: Sys, s: Sys, trace: seq<Event>, done: seq<int>, from: int, limit: nat,
          ordered: bool) {
    && s == Run(cfg, s0, trace) && s0.now <= s.now && (forall e :: e in trace ==> e.Tick? || e.ExpireOne?)
    && Progress(s0.repo.links, s.repo.links, done, from, limit, ordered, Active, Expired,
                Due(s0.repo.links, Active, s0.now), s.now)
  }

  lemma {:induction false} ExpiringStarts(cfg: Config, s: Sys, limit: nat, ordered: bool)
    requires Keyed(s.repo)
    ensures Expiring(cfg, s, s, [], [], 0, limit, ordered)
  {
  }

  lemma {:induction false} ExpiringReadsClock(cfg: Config, s0: Sys, s: Sys, trace: seq<Event>, done: seq<int>,
          from: int, limit: nat, ordered: bool, now: int)
    requires Expiring(cfg, s0, s, trace, done, from, limit, ordered) && s.now <= now
    ensures Expiring(cfg, s0, s.(now := now), trace + [Tick(now)], done, from, limit, ordered)
  {
    RunOne(cfg, s0, trace, Tick(now));
    LaterProgress(s0.repo.links, s.repo.links, done, from, limit, ordered, Active, Expired,
                  Due(s0.repo.links, Active, s0.now), s.now, now);
  }

  lemma {:induction false} ExpiringPage(cfg: Config, s0: Sys, s: Sys, trace: seq<Event>, done: seq<int>, from: int,
          limit: nat, ordered: bool, rows: seq<ShortLink>)
    requires Expiring(cfg, s0, s, trace, done, from, limit, ordered) && limit >= 1 && rows != []
    requires RowsOf(s.repo.links, rows)
    requires IsPage(After(Due(s.repo.links, Active, s.now), from), limit, ordered, Ids(rows))
    ensures var last := rows[|rows| - 1].id;
      && last > from && last in s.repo.links
      && Expiring(cfg, s0, ExpiredPage(s, rows), trace + ExpireEvents(rows), done + Ids(rows), last, limit, ordered)
  {
    NextProgress(s0.repo.links, s.repo, done, from, limit, ordered, Active, Expired,
                 Due(s0.repo.links, Active, s0.now), s.now, rows);
    PageExpires(cfg, s, rows);
    RunAppend(cfg, s0, trace, ExpireEvents(rows));
    OnlyExpires(rows);
  }

  lemma {:induction false} ExpiringEnds(cfg: Config, s0: Sys, s: Sys, trace: seq<Event>, done: seq<int>, from: int,
          limit: nat, ordered: bool)
    requires Expiring(cfg, s0, s, trace, done, from, limit, ordered) && limit >= 1
    requires IsPage(After(Due(s.repo.links, Active, s.now), from), limit, ordered, [])
    ensures Swept(s0.repo.links, s.repo.links, done, Due(s0.repo.links, Active, s.now), Expired)
    ensures ordered || |Due(s0.repo.links, Active, s.now)| <= limit ==>
      Due(s0.repo.links, Active, s0.now) <= Elements(done)
  {
    FinalProgress(s0.repo.links, s.repo.links, done, from, limit, ordered, Active, Expired,
                  Due(s0.repo.links, Active, s0.now), s.now);
  }

  /** RecycleExpires began in `s0`, whose clock gave the one reading it uses, and is in `s`. */
  ghost predicate Recycling(cfg: Config, s0: Sys, s: Sys, trace: seq<Event>, done: seq<int>, from: int, limit: nat,
          ordered: bool) {
    && s == Run(cfg, s0, trace) && s0.now == s.now && (forall e :: e in trace ==> e.RecycleOne?)
    && Progress(s0.repo.links, s.repo.links, done, from, limit, ordered, Expired, Recycled,
                Due(s0.repo.links, Expired, s0.now - YEAR), s0.now - YEAR)
  }

  lemma {:induction false} RecyclingStarts(cfg: Config, s: Sys, limit: nat, ordered: bool)
    requires Keyed(s.repo)
    ensures Recycling(cfg, s, s, [], [], 0, limit, ordered)
  {
  }

  lemma {:induction false} RecyclingPage(cfg: Config, s0: Sys, s: Sys, trace: seq<Event>, done: seq<int>, from: int,
          limit: nat, ordered: bool, rows: seq<ShortLink>)
    requires Recycling(cfg, s0, s, trace, done, from, limit, ordered) && limit >= 1 && rows != []
    requires RowsOf(s.repo.links, rows)
    requires IsPage(After(Due(s.repo.links, Expired, s.now - YEAR), from), limit, ordered, Ids(rows))
    ensures var last := rows[|rows| - 1].id;
      && last > from && last in s.repo.links
      && Recycling(cfg, s0, RecycledPage(s, rows), trace + RecycleEvents(rows), done + Ids(rows), last, limit, ordered)
  {
    NextProgress(s0.repo.links, s.repo, done, from, limit, ordered, Expired, Recycled,
                 Due(s0.repo.links, Expired, s0.now - YEAR), s0.now - YEAR, rows);
    PageRecycles(cfg, s, rows);
    RunAppend(cfg, s0, trace, RecycleEvents(rows));
    OnlyRecycles(rows);
  }

  lemma {:induction false} RecyclingEnds(cfg: Config, s0: Sys, s: Sys, trace: seq<Event>, done: seq<int>, from: int,
          limit: nat, ordered: bool)
    requires Recycling(cfg, s0, s, trace, done, from, limit, ordered) && limit >= 1
    requires IsPage(After(Due(s.repo.links, Expired, s.now - YEAR), from), limit, ordered, [])
    ensures var due := Due(s0.repo.links, Expired, s.now - YEAR);
      && Swept(s0.repo.links, s.repo.links, done, due, Recycled)
      && (ordered || |due| <= limit ==> due == Elements(done))
  {
    FinalProgress(s0.repo.links, s.repo.links, done, from, limit, ordered, Expired, Recycled,
                  Due(s0.repo.links, Expired, s0.now - YEAR), s0.now - YEAR);
  }

  lemma {:induction false} OnlyExpires(rows: seq<ShortLink>)
    ensures forall e :: e in ExpireEvents(rows) ==> e.ExpireOne?
  {
    if rows != [] { OnlyExpires(rows[..|rows| - 1]); }
  }

  lemma {:induction false} OnlyRecycles(rows: seq<ShortLink>)
    ensures forall e :: e in RecycleEvents(rows) ==> e.RecycleOne?
  {
    if rows != [] { OnlyRecycles(rows[..|rows| - 1]); }
  }

  // ---- removing used codes from a rebuilt pool ----

  /** `pool` without the codes of a page of links, one after the other. */
  function RemovedPage(pool: seq<string>, rows: seq<ShortLink>): seq<string> {
    if rows == [] then pool else RemoveFirst(RemovedPage(pool, rows[..|rows| - 1]), rows[|rows| - 1].code)
  }

  /** The codes of `done` are out of the pool: the live links up to `from`, in ID order. */
  ghost predicate Removing(links: map<int, ShortLink>, live: set<int>, base: seq<string>, pool: seq<string>,
          done: seq<int>, from: int) {
    Ascending(done) && Elements(done) == live - After(live, from) && pool == RemoveAll(base, CodesOf(links, done))
  }

  lemma {:induction false} RemovingStarts(m: Store, live: set<int>, base: seq<string>)
    requires Keyed(m) && live <= m.links.Keys
    ensures Removing(m.links, live, base, base, [], 0)
  {
    assert After(live, 0) == live;
  }

  lemma {:induction false} RemovingPage(links: map<int, ShortLink>, live: set<int>, base: seq<string>,
          pool: seq<string>, done: seq<int>, from: int, limit: nat, rows: seq<ShortLink>)
    requires Removing(links, live, base, pool, done, from) && rows != [] && live <= links.Keys
    requires RowsOf(links, rows) && Ids(rows) == Prefix(Listing(After(live, from), true), limit)
    ensures Removing(links, live, base, RemovedPage(pool, rows), done + Ids(rows), rows[|rows| - 1].id)
    ensures After(links.Keys, rows[|rows| - 1].id) < After(links.Keys, from)
  {
    var page, last := Ids(rows), rows[|rows| - 1].id;
    PrefixPage(live, from, limit, page);
    assert page[|page| - 1] == last;
    DoneNext(live, from, done, page, last);
    RemovedPageCodes(links, base, done, rows);
    AfterShrinks(links.Keys, from, last);
  }

  lemma {:induction false} DoneNext(live: set<int>, from: int, done: seq<int>, page: seq<int>, last: int)
    requires Ascending(done) && Elements(done) == live - After(live, from)
    requires Ascending(page) && Elements(page) == After(live, from) - After(live, last) && last > from
    ensures Ascending(done + page) && Elements(done + page) == live - After(live, last)
  {
    assert forall i :: 0 <= i < |done| ==> done[i] in Elements(done);
    assert forall i :: 0 <= i < |page| ==> page[i] in Elements(page);
    assert Elements(done + page) == Elements(done) + Elements(page);
  }

  lemma {:induction false} RemovedPageCodes(links: map<int, ShortLink>, base: seq<string>, done: seq<int>,
          rows: seq<ShortLink>)
    requires RowsOf(links, rows)
    ensures RemovedPage(RemoveAll(base, CodesOf(links, done)), rows)
      == RemoveAll(base, CodesOf(links, done + Ids(rows)))
  {
    if rows == [] {
      assert done + Ids(rows) == done;
    } else {
      var front, last := rows[..|rows| - 1], rows[|rows| - 1];
      RemovedPageCodes(links, base, done, front);
      var before := done + Ids(front);
      assert done + Ids(rows) == before + [last.id];
      assert (before + [last.id])[..|before|] == before;
      var codes := CodesOf(links, before);
      assert CodesOf(links, before + [last.id]) == codes + [last.code];
      assert (codes + [last.code])[..|codes|] == codes;
    }
  }

  lemma {:induction false} RemovingEnds(links: map<int, ShortLink>, live: set<int>, base: seq<string>,
          pool: seq<string>, done: seq<int>, from: int, limit: nat)
    requires Removing(links, live, base, pool, done, from) && limit >= 1
    requires Prefix(Listing(After(live, from), true), limit) == []
    ensures done == Sorted(live)
  {
    assert Sorted(After(live, from)) == [];
    assert After(live, from) == Elements<int>([]) == {};
    SortedUnique(done, Sorted(live));
  }

  /** A page in ID order holds what comes after `from`, up to its last row. */
  lemma {:induction false} PrefixPage(ids: set<int>, from: int, limit: nat, page: seq<int>)
    requires page == Prefix(Sorted(After(ids, from)), limit) && page != []
    ensures Ascending(page) && page[|page| - 1] in ids && page[|page| - 1] > from
    ensures Elements(page) == After(ids, from) - After(ids, page[|page| - 1])
  {
    var all, k := Sorted(After(ids, from)), |page|;
    PrefixIsFront(all, limit);
    AscendingFront(all, k);
    assert page[k - 1] == all[k - 1] && all[k - 1] in Elements(all);
  }

  lemma {:induction false} PrefixIsFront(all: seq<int>, limit: nat)
    ensures |Prefix(all, limit)| <= |all| && Prefix(all, limit) == all[..|Prefix(all, limit)|]
  {
  }

  lemma {:induction false} AscendingFront(all: seq<int>, k: nat)
    requires Ascending(all) && 1 <= k <= |all|
    ensures Ascending(all[..k]) && Elements(all[..k]) == Elements(all) - After(Elements(all), all[k - 1])
  {
    forall x ensures x in all[..k] <==> x in all && x <= all[k - 1] {
      if x in all && x <= all[k - 1] {
        var i :| 0 <= i < |all| && all[i] == x;
        assert i < k && all[..k][i] == x;
      }
    }
  }

  // ---- whole sweeps ----

  /**
    The pages of a complete sweep of the rows `left`, in the order they were read: each page is
    taken from the rows after the previous page's last row, and the last page is empty.
   */
  ghost predicate Sweep(left: set<int>, from: int, limit: nat, ordered: bool, pages: seq<seq<int>>)
    decreases |pages|
  {
    && pages != [] && IsPage(After(left, from), limit, ordered, pages[0])
    && if pages[0] == [] then |pages| == 1
       else Sweep(left - Elements(pages[0]), pages[0][|pages[0]| - 1], limit, ordered, pages[1..])
  }

  ghost function Touched(pages: seq<seq<int>>): set<int> {
    if pages == [] then {} else Elements(pages[0]) + Touched(pages[1..])
  }

  /** Pages read in ID order reach every row after the starting point, for any page size. */
  lemma {:induction false} OrderedSweepIsComplete(left: set<int>, from: int, limit: nat, pages: seq<seq<int>>)
    requires limit >= 1 && Sweep(left, from, limit, true, pages)
    ensures Touched(pages) == After(left, from)
    decreases |pages|
  {
    var page := pages[0];
    if page == [] {
      EmptyPage(left, from, limit, true);
      assert pages[1..] == [];
    } else {
      var last, rest := page[|page| - 1], left - Elements(page);
      PageAdvances(left, from, limit, true, page);
      OrderedSweepIsComplete(rest, last, limit, pages[1..]);
      forall id ensures id in After(left, from) <==> id in Elements(page) || id in After(rest, last) {
        if id in After(left, from) && id !in page { assert page[|page| - 1] < id; }
      }
    }
  }

  lemma {:induction false} TouchedPart(left: set<int>, from: int, limit: nat, ordered: bool, pages: seq<seq<int>>)
    requires Sweep(left, from, limit, ordered, pages)
    ensures Touched(pages) <= left
    decreases |pages|
  {
    if pages[0] != [] {
      TouchedPart(left - Elements(pages[0]), pages[0][|pages[0]| - 1], limit, ordered, pages[1..]);
    } else {
      assert pages[1..] == [];
    }
  }

  lemma {:induction false} Choose(s: set<int>, n: nat) returns (q: seq<int>)
    requires n <= |s|
    ensures |q| == n && Distinct(q) && Elements(q) <= s
  {
    q := [];
    if n > 0 {
      var x := Member(s);
      var rest := Choose(s - {x}, n - 1);
      q := rest + [x];
      assert x !in Elements(rest);
    }
  }

  /**
    Pages in arbitrary order, as a map iteration gives them: every complete sweep reaches every
    row exactly when the rows fit one page. With one row more, a sweep can miss the least row.
   */
  lemma {:induction false} ArbitraryOrderIsCompleteIff(left: set<int>, limit: nat)
    requires limit >= 1 && forall id :: id in left ==> id > 0
    ensures (forall pages :: Sweep(left, 0, limit, false, pages) ==> Touched(pages) == left) <==> |left| <= limit
  {
    if |left| <= limit {
      forall pages | Sweep(left, 0, limit, false, pages) ensures Touched(pages) == left {
        FirstPageIsAll(left, 0, limit, false, pages[0]);
        TouchedPart(left, 0, limit, false, pages);
        assert Elements(pages[0]) <= Touched(pages);
      }
    } else {
      var pages := MissingSweep(left, limit);
      assert Sweep(left, 0, limit, false, pages) && Touched(pages) != left;
    }
  }

  lemma {:induction false} MissingSweep(left: set<int>, limit: nat) returns (pages: seq<seq<int>>)
    requires limit >= 1 && |left| > limit && forall id :: id in left ==> id > 0
    ensures Sweep(left, 0, limit, false, pages) && Touched(pages) != left
  {
    var low := Least(left);
    var high := Greatest(left);
    assert |left - {low}| == |left| - 1;
    var between := Member(left - {low});
    assert low < between <= high;
    var others := Choose(left - {low} - {high}, limit - 1);
    var page := others + [high];
    assert forall x :: x in others ==> x in Elements(others);
    assert page[|page| - 1] == high && high !in others && low !in page;
    assert Elements(page) <= left;
    assert After(left, 0) == left;
    var rest := left - Elements(page);
    assert After(rest, high) == {};
    pages := [page, []];
    assert pages[1..] == [[]] && pages[1..][1..] == [];
    assert Sweep(rest, high, limit, false, [[]]);
    assert Touched([[]]) == {} && Touched(pages) == Elements(page) + Touched(pages[1..]);
    assert low in left && low !in Elements(page);
  }
}
