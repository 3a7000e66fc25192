/** Manual codes that have a generated length (the create endpoint of cores/http.go). */
module ManualCodes {
  import opened Links
  import opened MemoryPool
  import opened Rows
  import opened Lifecycle
  import opened Ownership
  import opened Agreement
  import opened Exhaustion

  /**
    The create endpoint looks at the requested length and at the links, not at the length of the
    code or at the pool. It admits every pooled code as a manual one, and the code then has two owners.
   */
  lemma {:induction false} PooledCodeIsAdmitted(cfg: Config, L: int, s: Sys, removed: set<string>, c: string,
          title: string, link: string, expire: int)
    requires Generated(cfg, L) && Owned(cfg, L, s, removed) && c in PoolOf(s.pools, L)
    ensures |c| == L && EndpointAdmits(s, c, false)
    ensures !ExclusiveOwnership(L, AddLink(s, c, title, link, expire))
  {
    HomeOf(cfg, L, s, removed, c);
    SharedIsNotExclusive(L, AddLink(s, c, title, link, expire), s.repo.nextID);
  }

  /** Adding a link leaves ownership exclusive exactly when its code is neither pooled nor of a live link. */
  lemma {:induction false} AddExclusiveIff(cfg: Config, L: int, s: Sys, code: string, title: string, link: string,
          expire: int, removed: set<string>)
    requires Generated(cfg, L) && Owned(cfg, L, s, removed)
    ensures ExclusiveOwnership(L, AddLink(s, code, title, link, expire)) <==>
      (|code| == L ==> code !in PoolOf(s.pools, L) && !LiveCode(s.repo, code))
  {
    var t, n := AddLink(s, code, title, link, expire), s.repo.nextID;
    OwnedIsExclusive(cfg, L, s, removed);
    if |code| == L && code in PoolOf(s.pools, L) {
      SharedIsNotExclusive(L, t, n);
    } else if |code| == L && LiveCode(s.repo, code) {
      TwoLiveAreNotExclusive(L, t, s.repo.codeToID[code], n);
    } else {
      FreshIsExclusive(L, s, code, title, link, expire);
    }
  }

  lemma {:induction false} TwoLiveAreNotExclusive(L: int, s: Sys, one: int, two: int)
    requires one in s.repo.links && two in s.repo.links && one != two
      && s.repo.links[one].code == s.repo.links[two].code
    requires s.repo.links[one].length == L && Live(s.repo.links[one])
    requires s.repo.links[two].length == L && Live(s.repo.links[two])
    ensures !ExclusiveOwnership(L, s)
  {
    assert one in LiveIds(s.repo, L) && two in LiveIds(s.repo, L);
  }

  lemma {:induction false} FreshIsExclusive(L: int, s: Sys, code: string, title: string, link: string, expire: int)
    requires WellFormed(s.repo) && Tracked(s.repo, L) && ExclusiveOwnership(L, s)
    requires |code| == L ==> code !in PoolOf(s.pools, L) && !LiveCode(s.repo, code)
    ensures ExclusiveOwnership(L, AddLink(s, code, title, link, expire))
  {
    var t, row := AddLink(s, code, title, link, expire), NewRow(code, title, link, expire);
    InsertedRows(s.repo, row);
    InsertedTrackedIff(s.repo, row, L);
    forall id | id in LiveIds(t.repo, L) ensures t.repo.links[id].code !in PoolOf(t.pools, L) {
      if id != s.repo.nextID { assert id in LiveIds(s.repo, L); }
    }
    forall id, other | id in LiveIds(t.repo, L) && other in t.repo.links
      && t.repo.links[other].code == t.repo.links[id].code
      ensures other <= id && (other in LiveIds(t.repo, L) ==> other == id)
    {
      LiveIsNewest(t.repo, id, other);
    }
  }
}
