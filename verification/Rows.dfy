/** How each repository operation moves the code index and the links that own codes. */
module Rows {
  import opened Links

  /** Rows are keyed and record their code's length; every index entry leads to a row with that code. */
  ghost predicate WellFormed(m: Store) {
    && Keyed(m)
    && (forall id :: id in m.links ==> m.links[id].length == |m.links[id].code|)
    && (forall c :: c in m.codeToID ==> m.codeToID[c] in m.links && m.links[m.codeToID[c]].code == c)
  }

  /** The code is owned: its index entry leads to an Active or Expired link. */
  predicate LiveCode(m: Store, c: string) {
    c in m.codeToID && m.codeToID[c] in m.links && Live(m.links[m.codeToID[c]])
  }

  /** A live row is the one its code leads to, and no row is newer than the one its code leads to. */
  predicate RowTracked(m: Store, id: int)
    requires id in m.links
  {
    var c := m.links[id].code;
    && (Live(m.links[id]) ==> c in m.codeToID && m.codeToID[c] == id)
    && (c in m.codeToID ==> id <= m.codeToID[c])
  }

  ghost predicate Tracked(m: Store, length: int) {
    forall id :: id in m.links && m.links[id].length == length ==> RowTracked(m, id)
  }

  ghost predicate AllTracked(m: Store) {
    forall id :: id in m.links ==> RowTracked(m, id)
  }

  /** Of tracked rows with one code at most one is live, and it is the newest. */
  lemma {:induction false} LiveIsNewest(m: Store, id: int, other: int)
    requires WellFormed(m) && id in m.links && Tracked(m, m.links[id].length) && Live(m.links[id])
    requires other in m.links && m.links[other].code == m.links[id].code
    ensures other <= id && (Live(m.links[other]) ==> other == id)
  {
    assert RowTracked(m, id) && RowTracked(m, other);
  }

  function NewRow(code: string, title: string, link: string, expire: int): ShortLink {
    ShortLink(0, |code|, code, title, link, expire, Active)
  }

  lemma {:induction false} InsertedRows(m: Store, row: ShortLink)
    requires WellFormed(m) && row.length == |row.code| && Live(row)
    ensures WellFormed(Inserted(m, row))
    ensures forall c :: LiveCode(Inserted(m, row), c) <==> c == row.code || LiveCode(m, c)
    ensures forall id :: id in m.links && m.links[id].code != row.code ==>
      (RowTracked(Inserted(m, row), id) <==> RowTracked(m, id))
    ensures RowTracked(Inserted(m, row), m.nextID)
  {
  }

  /** A new link keeps the rows of its length tracked exactly when no live link has its code. */
  lemma {:induction false} InsertedTrackedIff(m: Store, row: ShortLink, length: int)
    requires WellFormed(m) && row.length == |row.code| && Live(row) && Tracked(m, length)
    ensures Tracked(Inserted(m, row), length) <==> (row.length == length ==> !LiveCode(m, row.code))
  {
    InsertedRows(m, row);
    var n := Inserted(m, row);
    if row.length == length && LiveCode(m, row.code) {
      var old' := m.codeToID[row.code];
      assert old' in n.links && n.links[old'] == m.links[old'] && !RowTracked(n, old');
      assert n.links[old'].length == length;
    } else {
      forall id | id in n.links && n.links[id].length == length ensures RowTracked(n, id) {
        if id != m.nextID { assert RowTracked(m, id); }
      }
    }
  }

  lemma {:induction false} DeletedRows(m: Store, code: string, length: int)
    requires WellFormed(m) && Tracked(m, length)
    ensures WellFormed(Deleted(m, code)) && Tracked(Deleted(m, code), length)
    ensures forall c :: LiveCode(Deleted(m, code), c) <==> c != code && LiveCode(m, c)
  {
    var n := Deleted(m, code);
    forall id | id in n.links && n.links[id].length == length ensures RowTracked(n, id) {
      assert RowTracked(m, id);
    }
  }

  /** Writing back a row that its code leads to, with the same code and ID, moves no index entry. */
  lemma {:induction false} RewrittenRow(m: Store, row: ShortLink)
    requires WellFormed(m) && row.id in m.links && row.code == m.links[row.id].code && row.length == |row.code|
    requires row.code in m.codeToID && m.codeToID[row.code] == row.id
    ensures WellFormed(Replaced(m, row)) && Replaced(m, row) == m.(links := m.links[row.id := row])
    ensures forall c :: LiveCode(Replaced(m, row), c) <==> if c == row.code then Live(row) else LiveCode(m, c)
    ensures forall id :: id in m.links && (id == row.id ==> Live(row) ==> Live(m.links[id])) ==>
      (RowTracked(m, id) ==> RowTracked(Replaced(m, row), id))
  {
    assert m.codeToID[row.code := row.id] == m.codeToID;
  }

  /** Marking a live row leaves the other codes of a length alone, even where its own length is not tracked. */
  lemma {:induction false} MarkedRow(m: Store, id: int, status: Status, length: int)
    requires WellFormed(m) && Tracked(m, length) && id in m.links && Live(m.links[id])
    ensures var row := m.links[id].(status := status);
      && WellFormed(Replaced(m, row)) && Tracked(Replaced(m, row), length)
      && (row.length == length ==> LiveCode(m, row.code))
      && forall c :: |c| == length ==>
        (LiveCode(Replaced(m, row), c) <==> if c == row.code then Live(row) else LiveCode(m, c))
  {
    var row := m.links[id].(status := status);
    var n := Replaced(m, row);
    if row.length == length {
      assert RowTracked(m, id);
      RewrittenRow(m, row);
    }
    forall k | k in n.links && n.links[k].length == length ensures RowTracked(n, k) {
      assert RowTracked(m, k);
    }
  }

  lemma {:induction false} UpdatedRow(m: Store, code: string, title: string, link: string, expire: int)
    requires WellFormed(m) && Found(m, code).Some?
    ensures var row := Found(m, code).value.(link := link, title := title, expire := expire);
      && WellFormed(Replaced(m, row)) && Replaced(m, row) == m.(links := m.links[row.id := row])
      && (forall c :: LiveCode(Replaced(m, row), c) <==> LiveCode(m, c))
      && (forall id :: id in m.links ==> (RowTracked(Replaced(m, row), id) <==> RowTracked(m, id)))
  {
    var row := Found(m, code).value.(link := link, title := title, expire := expire);
    assert row.code == code && row.id == m.codeToID[code];
    assert m.codeToID[row.code := row.id] == m.codeToID;
  }
}
