/** The in-memory repository of ext/memx/repo.go. */
module MemoryRepository {
  import opened Collections
  import opened Links

  class MemoryShortLinkRepository {
    var links: map<int, ShortLink>
    var codeToID: map<string, int>
    var startIndex: map<int, int>
    var nextID: int
    const clock: Clock
    /** Row visiting order: by ID as the SQL backend sorts its pages, or Go's arbitrary map order. */
    const ordered: bool

    ghost function Abs(): Store
      reads this
    {
      Store(links, codeToID, startIndex, nextID)
    }

    ghost predicate Valid()
      reads this
    {
      Keyed(Abs())
    }

    constructor (clock: Clock, ordered: bool)
      ensures Valid() && Abs() == Store(map[], map[], map[], 1)
      ensures this.clock == clock && this.ordered == ordered
    {
      links, codeToID, startIndex, nextID := map[], map[], map[], 1;
      this.clock, this.ordered := clock, ordered;
    }

    method Create(link: ShortLink) returns (created: ShortLink)
      requires Valid()
      modifies this
      ensures Valid() && Abs() == Inserted(old(Abs()), link)
      ensures created == link.(id := old(nextID))
    {
      created := link.(id := nextID);
      nextID := nextID + 1;
      links := links[created.id := created];
      codeToID := codeToID[created.code := created.id];
    }

    /** False is ErrLinkNotFound. */
    method Update(link: ShortLink) returns (ok: bool)
      requires Valid()
      modifies this
      ensures Valid() && Abs() == Replaced(old(Abs()), link) && ok == (link.id in old(links))
    {
      if link.id !in links {
        return false;
      }
      links := links[link.id := link];
      codeToID := codeToID[link.code := link.id];
      ok := true;
    }

    method Updates(rows: seq<ShortLink>) returns (ok: bool)
      requires Valid()
      modifies this
      ensures Valid() && Abs() == ReplacedAll(old(Abs()), rows) && ok == AllStored(old(Abs()), rows)
    {
      for i := 0 to |rows|
        invariant Valid() && AllStored(old(Abs()), rows[..i])
        invariant Abs() == ReplacedAll(old(Abs()), rows[..i])
      {
        assert rows[..i + 1][..i] == rows[..i];
        var updated := Update(rows[i]);
        if !updated {
          ReplacedAllStops(old(Abs()), rows, i);
          return false;
        }
      }
      assert rows[..|rows|] == rows;
      ok := true;
    }

    method DeleteByCode(code: string) returns (ok: bool)
      requires Valid()
      modifies this
      ensures Valid() && Abs() == Deleted(old(Abs()), code) && ok == (code in old(codeToID))
    {
      if code !in codeToID {
        return false;
      }
      var id := codeToID[code];
      codeToID := codeToID - {code};
      links := links - {id};
      ok := true;
    }

    method GetByCode(code: string) returns (link: Option<ShortLink>)
      ensures link == Found(Abs(), code)
    {
      if code !in codeToID {
        return None;
      }
      var id := codeToID[code];
      link := if id in links then Some(links[id]) else None;
    }

    /** Visits rows in the repository's order, keeps matching ones, and stops at a full page. */
    method FindExpiredActives(fromID: int, limit: int) returns (result: seq<ShortLink>)
      requires Valid()
      modifies clock
      ensures old(clock.now) <= clock.now
      ensures RowsOf(links, result)
      ensures FoundPage(After(Due(links, Active, clock.now), fromID), limit, ordered, Ids(result))
    {
      var now := clock.Read();
      result := FindRows(links, fromID, limit, Active, now, ordered);
    }

    method FindExpires(fromID: int, expiredBefore: int, limit: int) returns (result: seq<ShortLink>)
      requires Valid()
      ensures RowsOf(links, result)
      ensures FoundPage(After(Due(links, Expired, expiredBefore), fromID), limit, ordered, Ids(result))
    {
      result := FindRows(links, fromID, limit, Expired, expiredBefore, ordered);
    }

    method List(length: int, statuses: seq<Status>, limit: nat, fromID: int, ascSort: bool)
      returns (result: seq<ShortLink>)
      requires Valid()
      ensures RowsOf(links, result)
      ensures Ids(result)
        == Prefix(Listing(After(WithStatus(links, length, Elements(statuses)), fromID), ascSort), limit)
    {
      result := SelectRows(links, length, statuses, Some(fromID));
      var page := SortedPage(result, limit, ascSort);
      RowsOfPart(links, result, page);
      result := page;
    }

    method GetStartIndex(length: int) returns (index: int)
      ensures index == Index(Abs(), length)
    {
      index := if length in startIndex then startIndex[length] else 0;
    }

    method SaveStartIndex(length: int, index: int)
      requires Valid()
      modifies this
      ensures Valid() && Abs() == Saved(old(Abs()), length, index)
    {
      startIndex := startIndex[length := index];
    }
  }

  lemma {:induction false} VisitRow(links: map<int, ShortLink>, fromID: int, status: Status, before: int,
          remaining: set<int>, ordered: bool, rows: seq<ShortLink>, id: int)
    requires id in remaining && remaining <= links.Keys && links[id].id == id && RowsOf(links, rows)
    requires Collected(After(Due(links, status, before), fromID), remaining, ordered, Ids(rows))
    requires ordered ==> forall x :: x in remaining ==> id <= x
    ensures var wanted := id > fromID && links[id].status == status && links[id].expire < before;
      var rows' := if wanted then rows + [links[id]] else rows;
      && RowsOf(links, rows')
      && Collected(After(Due(links, status, before), fromID), remaining - {id}, ordered, Ids(rows'))
  {
    CollectNext(After(Due(links, status, before), fromID), remaining, ordered, Ids(rows), id);
    RowsOfNext(links, rows, id);
  }

  /** The loop both finders share. */
  method FindRows(links: map<int, ShortLink>, fromID: int, limit: int, status: Status, before: int, ordered: bool)
    returns (result: seq<ShortLink>)
    requires forall id :: id in links ==> links[id].id == id
    ensures RowsOf(links, result)
    ensures FoundPage(After(Due(links, status, before), fromID), limit, ordered, Ids(result))
  {
    result := [];
    var remaining := links.Keys;
    ghost var wanted := After(Due(links, status, before), fromID);
    while remaining != {}
      invariant remaining <= links.Keys && RowsOf(links, result) && |result| < (if limit < 1 then 1 else limit)
      invariant Collected(wanted, remaining, ordered, Ids(result))
    {
      var id := NextVisited(remaining, ordered);
      VisitRow(links, fromID, status, before, remaining, ordered, result, id);
      remaining := remaining - {id};
      if id > fromID {
        if links[id].status == status && links[id].expire < before {
          result := result + [links[id]];
        }
        if |result| >= limit {
          break;
        }
      }
    }
    CollectedPage(wanted, remaining, limit, ordered, Ids(result));
  }

  /** `ids` after `from`, if that is given. */
  ghost function AfterAny(ids: set<int>, from: Option<int>): set<int> {
    match from
    case Some(id) => After(ids, id)
    case None => ids
  }

  /** The rows of a length in one of the statuses, in any order. */
  method SelectRows(links: map<int, ShortLink>, length: int, statuses: seq<Status>, from: Option<int>)
    returns (result: seq<ShortLink>)
    requires forall id :: id in links ==> links[id].id == id
    ensures RowsOf(links, result) && Distinct(Ids(result))
    ensures Elements(Ids(result)) == AfterAny(WithStatus(links, length, Elements(statuses)), from)
  {
    result := [];
    var remaining := links.Keys;
    ghost var wanted := AfterAny(WithStatus(links, length, Elements(statuses)), from);
    while remaining != {}
      invariant remaining <= links.Keys && RowsOf(links, result)
      invariant Collected(wanted, remaining, false, Ids(result))
    {
      var id := NextVisited(remaining, false);
      CollectNext(wanted, remaining, false, Ids(result), id);
      remaining := remaining - {id};
      if (from.None? || id > from.value) && links[id].length == length && links[id].status in statuses {
        RowsOfNext(links, result, id);
        result := result + [links[id]];
      }
    }
    assert Elements(Ids(result)) == wanted;
  }

  /** A limit below 1 stops at the first row past `fromID`, whether it matches or not. */
  ghost predicate FoundPage(from: set<int>, limit: int, ordered: bool, page: seq<int>) {
    if limit >= 1 then IsPage(from, limit, ordered, page)
    else |page| <= 1 && Elements(page) <= from
  }

  lemma {:induction false} CollectedPage(wanted: set<int>, remaining: set<int>, limit: int, ordered: bool,
          page: seq<int>)
    requires Collected(wanted, remaining, ordered, page)
    requires |page| <= (if limit < 1 then 1 else limit) && (limit >= 1 && |page| < limit ==> remaining == {})
    ensures FoundPage(wanted, limit, ordered, page)
  {
    if limit >= 1 { CollectDone(wanted, remaining, limit, ordered, page); }
  }

  /** Any row when iterating a Go map, the least when reading in ID order. */
  method NextVisited(remaining: set<int>, ordered: bool) returns (id: int)
    requires remaining != {}
    ensures id in remaining && (ordered ==> forall x :: x in remaining ==> id <= x)
  {
    ghost var least := Least(remaining);
    id :| id in remaining && (ordered ==> forall x :: x in remaining ==> id <= x);
  }

  /** The sorted rows, cut at `limit`. */
  method SortedPage(rows: seq<ShortLink>, limit: nat, asc: bool) returns (page: seq<ShortLink>)
    requires Distinct(Ids(rows))
    ensures Ids(page) == Prefix(Listing(Elements(Ids(rows)), asc), limit)
    ensures forall row :: row in page ==> row in rows
  {
    page := SortByID(rows, asc);
    ListingUnique(Ids(page), asc);
    ghost var listing := Ids(page);
    if |page| > limit {
      page := page[..limit];
      assert Ids(page) == listing[..limit];
    }
  }

  /** sort.Slice on the ID, by insertion. */
  method SortByID(rows: seq<ShortLink>, asc: bool) returns (sorted: seq<ShortLink>)
    requires Distinct(Ids(rows))
    ensures InOrder(Ids(sorted), asc) && Elements(Ids(sorted)) == Elements(Ids(rows))
    ensures forall row :: row in sorted ==> row in rows
  {
    sorted := [];
    for i := 0 to |rows|
      invariant InOrder(Ids(sorted), asc) && Elements(Ids(sorted)) == Elements(Ids(rows)[..i])
      invariant forall row :: row in sorted ==> row in rows
    {
      assert Ids(rows)[i] !in Elements(Ids(rows)[..i]);
      assert Ids(rows)[i] !in Elements(Ids(sorted));
      assert Ids(rows)[..i + 1] == Ids(rows)[..i] + [Ids(rows)[i]];
      sorted := Insert(sorted, rows[i], asc);
    }
    assert Ids(rows)[..|rows|] == Ids(rows);
  }

  method Insert(rows: seq<ShortLink>, row: ShortLink, asc: bool) returns (next: seq<ShortLink>)
    requires InOrder(Ids(rows), asc) && row.id !in Ids(rows)
    ensures InOrder(Ids(next), asc) && Elements(Ids(next)) == Elements(Ids(rows)) + {row.id}
    ensures forall r :: r in next ==> r in rows || r == row
  {
    var k := Place(rows, row.id, asc);
    InsertInOrder(Ids(rows), k, row.id, asc);
    IdsInsert(rows, k, row);
    InsertMembers(rows, k, row);
    next := rows[..k] + [row] + rows[k..];
  }

  /** The first position whose row does not come before `id`. */
  method Place(rows: seq<ShortLink>, id: int, asc: bool) returns (k: nat)
    ensures k <= |rows|
    ensures forall j :: 0 <= j < k ==> if asc then Ids(rows)[j] < id else id < Ids(rows)[j]
    ensures k < |rows| ==> if asc then Ids(rows)[k] >= id else id >= Ids(rows)[k]
  {
    k := 0;
    while k < |rows| && (if asc then rows[k].id < id else id < rows[k].id)
      invariant k <= |rows|
      invariant forall j :: 0 <= j < k ==> if asc then Ids(rows)[j] < id else id < Ids(rows)[j]
    {
      k := k + 1;
    }
  }
}
