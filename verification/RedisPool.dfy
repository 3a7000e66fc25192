/** The Redis code pool of ext/redisx/pool.go: a sorted set per length, scored by the second of adding. */
module RedisPool {
  import opened Collections
  import opened Links

  /** Member and score. */
  type ZSet = map<string, int>

  function SetOf(sets: map<int, ZSet>, length: int): ZSet {
    if length in sets then sets[length] else map[]
  }

  predicate LexLess(a: string, b: string) {
    b != "" && (a == "" || a[0] < b[0] || (a[0] == b[0] && LexLess(a[1..], b[1..])))
  }

  /** Members with equal scores are in lexicographic order. */
  predicate Precedes(z: ZSet, a: string, b: string)
    requires a in z && b in z
  {
    z[a] < z[b] || (z[a] == z[b] && LexLess(a, b))
  }

  predicate IsFirst(z: ZSet, c: string) {
    c in z && forall d :: d in z && d != c ==> Precedes(z, c, d)
  }

  lemma {:induction false} LexTotal(a: string, b: string)
    ensures LexLess(a, b) || a == b || LexLess(b, a)
  {
    if a != "" && b != "" && a[0] == b[0] {
      LexTotal(a[1..], b[1..]);
      assert a == [a[0]] + a[1..] && b == [b[0]] + b[1..];
    }
  }

  /** Lexicographic: a proper prefix, or a smaller character at the first difference. */
  lemma {:induction false} LexLessIff(a: string, b: string)
    ensures LexLess(a, b) <==> exists k :: DiffersAt(a, b, k) && k < |b| && (k == |a| || a[k] < b[k])
  {
    if a != "" && b != "" && a[0] == b[0] {
      var a', b' := a[1..], b[1..];
      LexLessIff(a', b');
      forall k | DiffersAt(a', b', k) && k < |b'| && (k == |a'| || a'[k] < b'[k])
        ensures DiffersAt(a, b, k + 1) && k + 1 < |b| && (k + 1 == |a| || a[k + 1] < b[k + 1])
      {
        assert a[..k + 1] == [a[0]] + a'[..k] && b[..k + 1] == [b[0]] + b'[..k];
      }
      forall k | DiffersAt(a, b, k) && k < |b| && (k == |a| || a[k] < b[k])
        ensures k > 0 && DiffersAt(a', b', k - 1) && k - 1 < |b'| && (k - 1 == |a'| || a'[k - 1] < b'[k - 1])
      {
        assert a[..k][0] == a[0];
        assert a'[..k - 1] == a[..k][1..] && b'[..k - 1] == b[..k][1..];
      }
    } else if LexLess(a, b) {
      assert DiffersAt(a, b, 0);
    }
  }

  /** The first `k` characters are the same, and not the next. */
  predicate DiffersAt(a: string, b: string, k: int) {
    && 0 <= k <= |a| && k <= |b| && a[..k] == b[..k]
    && (k < |a| && k < |b| ==> a[k] != b[k])
  }

  lemma {:induction false} LexTransitive(a: string, b: string, c: string)
    requires LexLess(a, b) && LexLess(b, c)
    ensures LexLess(a, c)
  {
    if a != "" && a[0] == b[0] == c[0] {
      LexTransitive(a[1..], b[1..], c[1..]);
    }
  }

  lemma {:induction false} PrecedesTransitive(z: ZSet, a: string, b: string, c: string)
    requires a in z && b in z && c in z && Precedes(z, a, b) && Precedes(z, b, c)
    ensures Precedes(z, a, c)
  {
    if z[a] == z[b] == z[c] { LexTransitive(a, b, c); }
  }

  lemma {:induction false} FirstOfSome(z: ZSet, some: set<string>) returns (c: string)
    requires some != {} && some <= z.Keys
    ensures c in some && forall d :: d in some && d != c ==> Precedes(z, c, d)
  {
    var one := Member(some);
    var rest := some - {one};
    assert forall e :: e in some ==> e == one || e in rest;
    if rest == {} {
      return one;
    }
    var d := FirstOfSome(z, rest);
    LexTotal(one, d);
    c := if Precedes(z, d, one) then d else one;
    forall e | e in some && e != c ensures Precedes(z, c, e) {
      if c == one && e != d {
        PrecedesTransitive(z, one, d, e);
      }
    }
  }

  lemma {:induction false} FirstExists(z: ZSet)
    requires z.Keys != {}
    ensures exists c :: c in z.Keys && IsFirst(z, c)
  {
    var c := FirstOfSome(z, z.Keys);
    assert IsFirst(z, c);
  }

  class RedisShortCodePool {
    var sets: map<int, ZSet>
    const clock: Clock

    constructor (clock: Clock)
      ensures sets == map[] && this.clock == clock
    {
      sets := map[];
      this.clock := clock;
    }

    /** ZPOPMIN; `enough` is false when a hundred or fewer codes remain. */
    method Pull(length: int) returns (code: string, enough: bool)
      modifies this
      ensures SetOf(old(sets), length).Keys == {} ==> code == "" && !enough && sets == old(sets)
      ensures SetOf(old(sets), length).Keys != {} ==>
        && IsFirst(SetOf(old(sets), length), code)
        && sets == old(sets)[length := SetOf(old(sets), length) - {code}]
        && (enough <==> |SetOf(sets, length)| > 100)
    {
      var z := SetOf(sets, length);
      if z.Keys == {} {
        return "", false;
      }
      FirstExists(z);
      code :| code in z.Keys && IsFirst(z, code);
      sets := sets[length := z - {code}];
      enough := |SetOf(sets, length)| > 100;
    }

    /** ZADD: a member that is there already only gets the new score. */
    method Add(length: int, shortCode: string)
      modifies this, clock
      ensures old(clock.now) <= clock.now
      ensures sets == old(sets)[length := SetOf(old(sets), length)[shortCode := Unix(clock.now)]]
    {
      var now := clock.Read();
      sets := sets[length := SetOf(sets, length)[shortCode := Unix(now)]];
    }

    method Size(length: int) returns (size: nat)
      ensures size == |SetOf(sets, length)|
    {
      size := |SetOf(sets, length)|;
    }

    method Remove(length: int, shortCode: string)
      modifies this
      ensures sets == old(sets)[length := SetOf(old(sets), length) - {shortCode}]
    {
      sets := sets[length := SetOf(sets, length) - {shortCode}];
    }

    method Clear(length: int)
      modifies this
      ensures sets == old(sets) - {length}
    {
      sets := sets - {length};
    }
  }
}

/** Where the sorted set and the in-memory queue agree, and what a rebuild leaves in the set. */
module PoolAgreement {
  import opened Collections
  import opened Generator
  import opened Links
  import opened Rows
  import opened Lifecycle
  import opened Ownership
  import opened RedisPool

  /** The set holds what the queue holds, and the queue holds nothing twice. */
  ghost predicate Same(z: ZSet, queue: seq<string>) {
    z.Keys == Elements(queue) && Distinct(queue)
  }

  lemma {:induction false} AddAgreesIff(z: ZSet, queue: seq<string>, code: string, at: int)
    requires Same(z, queue)
    ensures Same(z[code := at], queue + [code]) <==> code !in queue
  {
    assert forall c :: c in Elements(queue + [code]) <==> c in Elements(queue) || c == code;
    if code in queue {
      var i :| 0 <= i < |queue| && queue[i] == code;
      assert (queue + [code])[i] == (queue + [code])[|queue|];
    } else {
      DistinctAppend(queue, [code]);
    }
  }

  lemma {:induction false} RemoveAgrees(z: ZSet, queue: seq<string>, code: string)
    requires Same(z, queue)
    ensures Same(z - {code}, RemoveFirst(queue, code))
  {
    RemoveFirstDistinct(queue, code);
  }

  /** A pull keeps both in agreement exactly when the set's first member is the queue's. */
  lemma {:induction false} PullAgreesIff(z: ZSet, queue: seq<string>, code: string)
    requires Same(z, queue) && queue != [] && IsFirst(z, code)
    ensures Same(z - {code}, queue[1..]) <==> code == queue[0]
  {
    assert forall c :: c in Elements(queue) <==> c == queue[0] || c in Elements(queue[1..]);
    assert queue[0] !in queue[1..];
    if code == queue[0] {
      assert (z - {code}).Keys == Elements(queue[1..]);
    } else {
      assert queue[0] in z - {code};
    }
  }

  /** It is the queue's first up to the second: what goes out was added in the same second. */
  lemma {:induction false} PullIsFirstToTheSecond(z: ZSet, queue: seq<string>, code: string)
    requires Same(z, queue) && queue != [] && IsFirst(z, code)
    requires forall i, j :: 0 <= i < j < |queue| && queue[i] in z && queue[j] in z ==> z[queue[i]] <= z[queue[j]]
    ensures queue[0] in z && z[code] == z[queue[0]]
  {
    assert queue[0] in Elements(queue) && code in Elements(queue);
    var k :| 0 <= k < |queue| && queue[k] == code;
  }

  // ---- rebuilding ----

  function AddedAll(z: ZSet, codes: seq<string>, at: nat -> int): ZSet {
    if codes == [] then z
    else AddedAll(z, codes[..|codes| - 1], at)[codes[|codes| - 1] := at(|codes| - 1)]
  }

  function TakenOut(z: ZSet, codes: seq<string>): ZSet {
    if codes == [] then z else TakenOut(z, codes[..|codes| - 1]) - {codes[|codes| - 1]}
  }

  lemma {:induction false} AddedMembers(z: ZSet, codes: seq<string>, at: nat -> int)
    ensures AddedAll(z, codes, at).Keys == z.Keys + Elements(codes)
  {
    if codes != [] {
      var front := codes[..|codes| - 1];
      AddedMembers(z, front, at);
      assert forall c :: c in Elements(codes) <==> c in Elements(front) || c == codes[|codes| - 1];
    }
  }

  lemma {:induction false} TakenOutMembers(z: ZSet, codes: seq<string>)
    ensures TakenOut(z, codes).Keys == z.Keys - Elements(codes)
  {
    if codes != [] {
      var front := codes[..|codes| - 1];
      TakenOutMembers(z, front);
      assert forall c :: c in Elements(codes) <==> c in Elements(front) || c == codes[|codes| - 1];
    }
  }

  /** Clear, add every regenerated code at whatever times, take out the used ones. */
  ghost function RebuiltSet(cfg: Config, m: Store, L: int, at: nat -> int): ZSet {
    TakenOut(AddedAll(map[], Issued(cfg, m, L), at), UsedCodes(m.links, L))
  }

  /** Over Redis a rebuild is exact for every stored index, also past the batch that repeats codes. */
  lemma {:induction false} RebuiltSetExact(cfg: Config, m: Store, L: int, at: nat -> int)
    requires WellFormed(m) && Tracked(m, L)
    ensures forall c :: c in RebuiltSet(cfg, m, L, at) <==> c in Issued(cfg, m, L) && !(|c| == L && LiveCode(m, c))
  {
    RebuiltMembers(cfg, m, L, at);
    UsedCodesAreLive(m, L);
  }

  lemma {:induction false} RebuiltMembers(cfg: Config, m: Store, L: int, at: nat -> int)
    ensures RebuiltSet(cfg, m, L, at).Keys == Elements(Issued(cfg, m, L)) - Elements(UsedCodes(m.links, L))
  {
    AddedMembers(map[], Issued(cfg, m, L), at);
    TakenOutMembers(AddedAll(map[], Issued(cfg, m, L), at), UsedCodes(m.links, L));
  }

  /** Up to the batch that repeats codes it leaves exactly what the in-memory pool holds. */
  lemma {:induction false} RebuiltSetAgrees(cfg: Config, m: Store, L: int, at: nat -> int)
    requires Generated(cfg, L) && 0 <= Index(m, L) <= Capacity(cfg.batch, cfg.steps[L])
    ensures Same(RebuiltSet(cfg, m, L, at), RemoveAll(Issued(cfg, m, L), UsedCodes(m.links, L)))
  {
    RebuiltMembers(cfg, m, L, at);
    AllCodesDistinct(L, cfg.batch, cfg.steps[L], Index(m, L));
    SameWithout(RebuiltSet(cfg, m, L, at), Issued(cfg, m, L), UsedCodes(m.links, L));
  }

  lemma {:induction false} SameWithout(z: ZSet, queue: seq<string>, codes: seq<string>)
    requires Distinct(queue) && z.Keys == Elements(queue) - Elements(codes)
    ensures Same(z, RemoveAll(queue, codes))
  {
    RemoveAllDistinct(queue, codes);
  }
}
