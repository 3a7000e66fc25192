/** Short links (cores/link.go), the clock they expire by, and the state of the in-memory repository. */
module Links {
  import opened Collections

  datatype Status = Active | Expired | Recycled

  datatype ShortLink = ShortLink(
    id: int, length: int, code: string, title: string, link: string, expire: int, status: Status)

  /** A link that still owns its code. */
  predicate Live(row: ShortLink) {
    row.status != Recycled
  }

  /** Times are in nanoseconds; `Before` and `After` of the source are the strict orders. */
  const SECOND := 1_000_000_000
  const YEAR := 365 * 24 * 3600 * SECOND

  /** Seconds since the epoch, rounded down. */
  function Unix(t: int): int {
    t / SECOND
  }

  /** time.Now(): each reading is at or after the one before. */
  class Clock {
    var now: int

    constructor (start: int)
      ensures now == start
    {
      now := start;
    }

    method Read() returns (t: int)
      modifies this
      ensures old(now) <= now == t
    {
      var elapsed :| 0 <= elapsed;
      now := now + elapsed;
      t := now;
    }
  }

  datatype Store = Store(links: map<int, ShortLink>, codeToID: map<string, int>, startIndex: map<int, int>, nextID: int)

  function Inserted(m: Store, row: ShortLink): Store {
    m.(links := m.links[m.nextID := row.(id := m.nextID)],
       codeToID := m.codeToID[row.code := m.nextID],
       nextID := m.nextID + 1)
  }

  function Replaced(m: Store, row: ShortLink): Store {
    if row.id in m.links then
      m.(links := m.links[row.id := row], codeToID := m.codeToID[row.code := row.id])
    else m
  }

  predicate AllStored(m: Store, rows: seq<ShortLink>) {
    forall i :: 0 <= i < |rows| ==> rows[i].id in m.links
  }

  /** Writes rows in order and stops at the first that is not stored. */
  function ReplacedAll(m: Store, rows: seq<ShortLink>): (n: Store)
    ensures n.links.Keys == m.links.Keys
  {
    if rows == [] then m
    else
      var front := rows[..|rows| - 1];
      if AllStored(m, front) then Replaced(ReplacedAll(m, front), rows[|rows| - 1]) else ReplacedAll(m, front)
  }

  lemma {:induction false} ReplacedAllStops(m: Store, rows: seq<ShortLink>, i: nat)
    requires i < |rows| && rows[i].id !in m.links
    ensures ReplacedAll(m, rows) == ReplacedAll(m, rows[..i])
    decreases |rows|
  {
    var front := rows[..|rows| - 1];
    if i < |front| {
      ReplacedAllStops(m, front, i);
      assert front[i] == rows[i] && front[..i] == rows[..i];
      assert !AllStored(m, front);
    } else {
      assert rows[..i] == front;
    }
  }

  function Deleted(m: Store, code: string): Store {
    if code in m.codeToID then
      m.(links := m.links - {m.codeToID[code]}, codeToID := m.codeToID - {code})
    else m
  }

  function Found(m: Store, code: string): Option<ShortLink> {
    if code in m.codeToID && m.codeToID[code] in m.links then Some(m.links[m.codeToID[code]]) else None
  }

  function Index(m: Store, length: int): int {
    if length in m.startIndex then m.startIndex[length] else 0
  }

  function Saved(m: Store, length: int, index: int): Store {
    m.(startIndex := m.startIndex[length := index])
  }

  /** Rows are stored under their own positive IDs, all below the next one. */
  ghost predicate Keyed(m: Store) {
    1 <= m.nextID && forall id :: id in m.links ==> 1 <= id < m.nextID && m.links[id].id == id
  }

  // ---- what the finders select ----

  /** The rows of a status whose expiry lies before a time. */
  ghost function Due(links: map<int, ShortLink>, status: Status, before: int): set<int> {
    set id | id in links && links[id].status == status && links[id].expire < before
  }

  ghost function WithStatus(links: map<int, ShortLink>, length: int, statuses: set<Status>): set<int> {
    set id | id in links && links[id].length == length && links[id].status in statuses
  }

  ghost function After(ids: set<int>, fromID: int): set<int> {
    set id | id in ids && id > fromID
  }

  function Ids(rows: seq<ShortLink>): (r: seq<int>)
    ensures |r| == |rows| && forall i :: 0 <= i < |rows| ==> r[i] == rows[i].id
  {
    if rows == [] then [] else Ids(rows[..|rows| - 1]) + [rows[|rows| - 1].id]
  }

  /**
    A page of at most `limit` of the IDs `from`. Fewer than `limit` means that all of them are
    there. When pages are read ORDER BY id, a page is the least of them in increasing order.
   */
  ghost predicate IsPage(from: set<int>, limit: nat, ordered: bool, page: seq<int>) {
    && Distinct(page) && Elements(page) <= from && |page| <= limit
    && (|page| < limit ==> from <= Elements(page))
    && (ordered ==> Ascending(page) && forall id, i :: id in from && id !in page && 0 <= i < |page| ==> page[i] < id)
  }

  ghost predicate RowsOf(links: map<int, ShortLink>, rows: seq<ShortLink>) {
    forall i :: 0 <= i < |rows| ==> rows[i].id in links && links[rows[i].id] == rows[i]
  }

  /** `ids` in the order asked for. */
  ghost function Listing(ids: set<int>, asc: bool): seq<int> {
    if asc then Sorted(ids) else Backwards(Sorted(ids))
  }

  function Backwards(s: seq<int>): (r: seq<int>)
    ensures |r| == |s| && forall i :: 0 <= i < |s| ==> r[i] == s[|s| - 1 - i]
  {
    if s == [] then [] else [s[|s| - 1]] + Backwards(s[..|s| - 1])
  }

  ghost function Prefix(s: seq<int>, limit: nat): seq<int> {
    if |s| > limit then s[..limit] else s
  }

  ghost predicate InOrder(s: seq<int>, asc: bool) {
    forall i, j :: 0 <= i < j < |s| ==> if asc then s[i] < s[j] else s[j] < s[i]
  }

  lemma {:induction false} ListingUnique(s: seq<int>, asc: bool)
    requires InOrder(s, asc)
    ensures s == Listing(Elements(s), asc)
  {
    if asc {
      SortedUnique(s, Sorted(Elements(s)));
    } else {
      var b := Backwards(s);
      forall x ensures x in Elements(b) <==> x in Elements(s) {
        if x in s { var i :| 0 <= i < |s| && s[i] == x; assert b[|s| - 1 - i] == x; }
        if x in b { var i :| 0 <= i < |b| && b[i] == x; assert s[|s| - 1 - i] == x; }
      }
      SortedUnique(b, Sorted(Elements(s)));
      assert s == Backwards(b);
    }
  }

  /** `page` holds the wanted IDs that are no longer remaining. */
  ghost predicate Collected(wanted: set<int>, remaining: set<int>, ordered: bool, page: seq<int>) {
    && Distinct(page) && Elements(page) == wanted - remaining
    && (ordered ==> Ascending(page) && forall i, x :: 0 <= i < |page| && x in remaining ==> page[i] < x)
  }

  lemma {:induction false} CollectNext(wanted: set<int>, remaining: set<int>, ordered: bool, page: seq<int>, id: int)
    requires Collected(wanted, remaining, ordered, page) && id in remaining
    requires ordered ==> forall x :: x in remaining ==> id <= x
    ensures Collected(wanted, remaining - {id}, ordered, if id in wanted then page + [id] else page)
  {
    assert forall x :: x in page <==> x in Elements(page);
  }

  lemma {:induction false} CollectDone(wanted: set<int>, remaining: set<int>, limit: nat, ordered: bool, page: seq<int>)
    requires Collected(wanted, remaining, ordered, page)
    requires |page| <= limit && (|page| < limit ==> remaining == {})
    ensures IsPage(wanted, limit, ordered, page)
  {
    assert forall x :: x in page <==> x in Elements(page);
  }

  lemma {:induction false} InsertInOrder(ids: seq<int>, k: nat, id: int, asc: bool)
    requires InOrder(ids, asc) && k <= |ids| && id !in ids
    requires forall j :: 0 <= j < k ==> if asc then ids[j] < id else id < ids[j]
    requires k < |ids| ==> if asc then ids[k] >= id else id >= ids[k]
    ensures InOrder(ids[..k] + [id] + ids[k..], asc)
    ensures Elements(ids[..k] + [id] + ids[k..]) == Elements(ids) + {id}
  {
    var front, back := ids[..k], ids[k..];
    assert ids == front + back;
    assert Elements(front + [id] + back) == Elements(front + back) + {id};
    forall j | 0 <= j < |back| ensures if asc then id < back[j] else back[j] < id {
      assert back[j] == ids[k + j] && ids[k + j] in ids;
    }
    JoinInOrder(front, id, back, asc);
  }

  lemma {:induction false} JoinInOrder(front: seq<int>, id: int, back: seq<int>, asc: bool)
    requires InOrder(front, asc) && InOrder(back, asc)
    requires forall j :: 0 <= j < |front| ==> if asc then front[j] < id else id < front[j]
    requires forall j :: 0 <= j < |back| ==> if asc then id < back[j] else back[j] < id
    ensures InOrder(front + [id] + back, asc)
  {
  }

  lemma {:induction false} IdsInsert(rows: seq<ShortLink>, k: nat, row: ShortLink)
    requires k <= |rows|
    ensures Ids(rows[..k] + [row] + rows[k..]) == Ids(rows)[..k] + [row.id] + Ids(rows)[k..]
  {
    IdsConcat(rows[..k], rows[k..]);
    assert rows == rows[..k] + rows[k..];
    IdsConcat(rows[..k] + [row], rows[k..]);
    IdsConcat(rows[..k], [row]);
  }

  lemma {:induction false} IdsConcat(a: seq<ShortLink>, b: seq<ShortLink>)
    ensures Ids(a + b) == Ids(a) + Ids(b)
  {
  }

  lemma {:induction false} RowsOfNext(links: map<int, ShortLink>, rows: seq<ShortLink>, id: int)
    requires RowsOf(links, rows) && id in links && links[id].id == id
    ensures RowsOf(links, rows + [links[id]]) && Ids(rows + [links[id]]) == Ids(rows) + [id]
  {
    assert (rows + [links[id]])[..|rows|] == rows;
  }

  lemma {:induction false} InsertMembers(rows: seq<ShortLink>, k: nat, row: ShortLink)
    requires k <= |rows|
    ensures forall r :: r in rows[..k] + [row] + rows[k..] ==> r in rows || r == row
  {
  }

  lemma {:induction false} RowsOfPart(links: map<int, ShortLink>, rows: seq<ShortLink>, part: seq<ShortLink>)
    requires RowsOf(links, rows) && forall row :: row in part ==> row in rows
    ensures RowsOf(links, part)
  {
    forall i | 0 <= i < |part| ensures part[i].id in links && links[part[i].id] == part[i] {
      assert part[i] in rows;
    }
  }
}
