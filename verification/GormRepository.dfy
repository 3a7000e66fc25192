/** The SQL table of ext/gormx/repo.go. */
module GormRepository {
  import opened Collections
  import opened Links
  import opened MemoryRepository

  datatype Table = Table(rows: map<int, ShortLink>, startIndex: map<int, int>, nextID: int)

  /** A row inserted without an ID gets the next one; one inserted with an ID moves the counter past it. */
  function RowInserted(t: Table, row: ShortLink): Table {
    if row.id == 0 then t.(rows := t.rows[t.nextID := row.(id := t.nextID)], nextID := t.nextID + 1)
    else if row.id in t.rows then t
    else t.(rows := t.rows[row.id := row], nextID := if row.id < t.nextID then t.nextID else row.id + 1)
  }

  /** Save: an update, or an insert when no row has the ID. */
  function RowSaved(t: Table, row: ShortLink): Table {
    if row.id in t.rows then t.(rows := t.rows[row.id := row]) else RowInserted(t, row)
  }

  function RowsSaved(t: Table, rows: seq<ShortLink>): Table {
    if rows == [] then t else RowSaved(RowsSaved(t, rows[..|rows| - 1]), rows[|rows| - 1])
  }

  /** Every row with the code goes. */
  function CodeDeleted(t: Table, code: string): Table {
    t.(rows := map id | id in t.rows && t.rows[id].code != code :: t.rows[id])
  }

  predicate IsNewest(rows: map<int, ShortLink>, code: string, id: int) {
    && id in rows && rows[id].code == code
    && forall k :: k in rows && rows[k].code == code ==> k <= id
  }

  /** WHERE code = ? ORDER BY id DESC LIMIT 1 */
  function Newest(rows: map<int, ShortLink>, code: string): Option<ShortLink> {
    if exists id :: id in rows.Keys && IsNewest(rows, code, id) then
      var id :| id in rows.Keys && IsNewest(rows, code, id);
      Some(rows[id])
    else None
  }

  lemma {:induction false} NewestExists(rows: map<int, ShortLink>, code: string)
    ensures match Newest(rows, code)
            case Some(row) => exists id :: IsNewest(rows, code, id) && row == rows[id]
            case None => forall id :: id in rows ==> rows[id].code != code
  {
    var ids := set id | id in rows && rows[id].code == code;
    forall id | id in rows && rows[id].code == code ensures id in ids {}
    if ids != {} {
      var id := Greatest(ids);
      assert id in ids;
      forall k | k in rows && rows[k].code == code ensures k <= id {
        assert k in ids;
      }
      assert IsNewest(rows, code, id);
    }
  }

  /** A model with ID 0 reads as no model. */
  function StoredIndex(t: Table, length: int): int {
    if length in t.startIndex && length != 0 then t.startIndex[length] else 0
  }

  ghost predicate Stored(t: Table) {
    1 <= t.nextID && forall id :: id in t.rows ==> id != 0 && id < t.nextID && t.rows[id].id == id
  }

  lemma {:induction false} AnyStatus()
    ensures forall status: Status :: status in [Active, Expired, Recycled]
  {
    forall status: Status ensures status in [Active, Expired, Recycled] {
      var all := [Active, Expired, Recycled];
      match status
      case Active => assert all[0] == status;
      case Expired => assert all[1] == status;
      case Recycled => assert all[2] == status;
    }
  }

  /** No status given means any. */
  function Wanted(statuses: seq<Status>): (r: seq<Status>)
    ensures forall status :: status in r <==> statuses == [] || status in statuses
  {
    AnyStatus();
    if |statuses| > 0 then statuses else [Active, Expired, Recycled]
  }

  ghost function Limited(s: seq<int>, limit: int): seq<int> {
    if limit > 0 then Prefix(s, limit) else s
  }

  class GormShortLinkRepository {
    var rows: map<int, ShortLink>
    var startIndex: map<int, int>
    var nextID: int
    const clock: Clock

    ghost function Abs(): Table
      reads this
    {
      Table(rows, startIndex, nextID)
    }

    ghost predicate Valid()
      reads this
    {
      Stored(Abs())
    }

    constructor (clock: Clock)
      ensures Valid() && Abs() == Table(map[], map[], 1) && this.clock == clock
    {
      rows, startIndex, nextID := map[], map[], 1;
      this.clock := clock;
    }

    /** False is a duplicate key. */
    method Create(link: ShortLink) returns (created: ShortLink, ok: bool)
      requires Valid()
      modifies this
      ensures Valid() && Abs() == RowInserted(old(Abs()), link)
      ensures ok <==> link.id !in old(rows)
      ensures created == if link.id == 0 then link.(id := old(nextID)) else link
      ensures rows == (if ok then old(rows)[created.id := created] else old(rows)) && nextID >= old(nextID)
    {
      created := if link.id == 0 then link.(id := nextID) else link;
      if created.id in rows {
        return created, false;
      }
      rows := rows[created.id := created];
      nextID := if created.id < nextID then nextID else created.id + 1;
      ok := true;
    }

    method Update(link: ShortLink)
      requires Valid()
      modifies this
      ensures Valid() && Abs() == RowSaved(old(Abs()), link)
      ensures link.id != 0 ==> rows == old(rows)[link.id := link]
    {
      if link.id in rows {
        rows := rows[link.id := link];
      } else {
        var created, ok := Create(link);
      }
    }

    method Updates(links: seq<ShortLink>)
      requires Valid()
      modifies this
      ensures Valid() && Abs() == RowsSaved(old(Abs()), links)
    {
      for i := 0 to |links|
        invariant Valid() && Abs() == RowsSaved(old(Abs()), links[..i])
      {
        assert links[..i + 1][..i] == links[..i];
        Update(links[i]);
      }
      assert links[..|links|] == links;
    }

    method DeleteByCode(code: string)
      requires Valid()
      modifies this
      ensures Valid() && Abs() == CodeDeleted(old(Abs()), code)
    {
      rows := map id | id in rows && rows[id].code != code :: rows[id];
    }

    /** No row is no error here. */
    method GetByCode(code: string) returns (link: Option<ShortLink>)
      ensures match link
              case Some(row) => exists id :: IsNewest(rows, code, id) && row == rows[id]
              case None => forall id :: id in rows ==> rows[id].code != code
    {
      NewestExists(rows, code);
      link := Newest(rows, code);
    }

    method FindExpiredActives(fromID: int, limit: int) returns (result: seq<ShortLink>)
      requires Valid()
      modifies clock
      ensures old(clock.now) <= clock.now && RowsOf(rows, result)
      ensures Ids(result) == Cut(Sorted(After(Due(rows, Active, clock.now), fromID)), limit)
      ensures limit < 0 ==> Elements(Ids(result)) == After(Due(rows, Active, clock.now), fromID)
      ensures limit == 0 ==> result == []
    {
      var now := clock.Read();
      result := FirstRows(rows, fromID, limit, Active, now);
    }

    method FindExpires(fromID: int, expiredBefore: int, limit: int) returns (result: seq<ShortLink>)
      requires Valid()
      ensures RowsOf(rows, result)
      ensures Ids(result) == Cut(Sorted(After(Due(rows, Expired, expiredBefore), fromID)), limit)
      ensures limit < 0 ==> Elements(Ids(result)) == After(Due(rows, Expired, expiredBefore), fromID)
      ensures limit == 0 ==> result == []
    {
      result := FirstRows(rows, fromID, limit, Expired, expiredBefore);
    }

    /** A starting ID of 0 or less is no condition. */
    method List(length: int, statuses: seq<Status>, limit: int, fromID: int, ascSort: bool)
      returns (result: seq<ShortLink>)
      requires Valid()
      ensures RowsOf(rows, result)
      ensures Ids(result) ==
        Limited(Listing(AfterAny(WithStatus(rows, length, Elements(Wanted(statuses))),
                                 if fromID > 0 then Some(fromID) else None),
                        ascSort), limit)
      ensures limit < 1 ==> forall id :: id in Ids(result) <==>
        && id in rows && rows[id].length == length && (statuses == [] || rows[id].status in statuses)
        && (fromID > 0 ==> id > fromID)
    {
      var selected := SelectRows(rows, length, Wanted(statuses), if fromID > 0 then Some(fromID) else None);
      result := SortedPage(selected, if limit > 0 then limit else |selected|, ascSort);
      RowsOfPart(rows, selected, result);
      ListingSize(Ids(selected), ascSort);
      ListingMembers(Elements(Ids(selected)), ascSort);
    }

    method GetStartIndex(length: int) returns (index: int)
      ensures index == StoredIndex(Abs(), length)
    {
      index := if length in startIndex && length != 0 then startIndex[length] else 0;
    }

    method SaveStartIndex(length: int, index: int)
      requires Valid()
      modifies this
      ensures Valid() && Abs() == old(Abs()).(startIndex := old(startIndex)[length := index])
    {
      startIndex := startIndex[length := index];
    }
  }

  /** LIMIT n: a negative limit is none. */
  ghost function Cut(s: seq<int>, limit: int): seq<int> {
    if limit >= 0 then Prefix(s, limit) else s
  }

  /** ORDER BY id ASC LIMIT n over the due rows after an ID. */
  method FirstRows(rows: map<int, ShortLink>, fromID: int, limit: int, status: Status, before: int)
    returns (result: seq<ShortLink>)
    requires forall id :: id in rows ==> rows[id].id == id
    ensures RowsOf(rows, result)
    ensures Ids(result) == Cut(Sorted(After(Due(rows, status, before), fromID)), limit)
  {
    if limit == 0 {
      return [];
    }
    var size := if limit < 0 then |rows| + 1 else limit;
    result := FindRows(rows, fromID, size, status, before, true);
    ghost var due := After(Due(rows, status, before), fromID);
    OrderedPage(due, size, Ids(result));
    SortedFits(rows, due);
  }

  lemma {:induction false} SortedFits(rows: map<int, ShortLink>, ids: set<int>)
    requires ids <= rows.Keys
    ensures |Sorted(ids)| <= |rows|
  {
    DistinctSize(Sorted(ids));
    SubsetSize(ids, rows.Keys);
    assert |rows.Keys| == |rows|;
  }

  /** A page read in ID order is a prefix of the matching rows sorted by ID. */
  lemma {:induction false} OrderedPage(ids: set<int>, limit: nat, page: seq<int>)
    requires IsPage(ids, limit, true, page)
    ensures page == Prefix(Sorted(ids), limit)
  {
    var rest := Sorted(ids - Elements(page));
    forall i, j | 0 <= i < |page| && 0 <= j < |rest| ensures page[i] < rest[j] {
      assert rest[j] in Elements(rest);
    }
    assert Elements(page + rest) == Elements(page) + Elements(rest);
    SortedUnique(page + rest, Sorted(ids));
    if |page| < limit {
      assert ids - Elements(page) == {};
    }
  }

  lemma {:induction false} ListingSize(ids: seq<int>, asc: bool)
    requires Distinct(ids)
    ensures |Listing(Elements(ids), asc)| == |ids|
  {
    DistinctSize(ids);
    DistinctSize(Sorted(Elements(ids)));
  }

  lemma {:induction false} ListingMembers(ids: set<int>, asc: bool)
    ensures forall id :: id in Listing(ids, asc) <==> id in ids
  {
    var sorted := Sorted(ids);
    forall id ensures id in Listing(ids, asc) <==> id in ids {
      if id in ids && !asc {
        assert id in Elements(sorted);
        var i :| 0 <= i < |sorted| && sorted[i] == id;
        assert Backwards(sorted)[|sorted| - 1 - i] == id;
      }
      if id in Listing(ids, asc) && !asc {
        var i :| 0 <= i < |sorted| && Backwards(sorted)[i] == id;
        assert sorted[|sorted| - 1 - i] in Elements(sorted);
      }
      if asc { assert id in sorted <==> id in Elements(sorted); }
    }
  }
}
