/** Sequences read as collections: distinctness, removal of one occurrence, ascending order. */
module Collections {

  datatype Option<+T> = None | Some(value: T)

  ghost predicate Distinct<T>(s: seq<T>) {
    forall i, j :: 0 <= i < j < |s| ==> s[i] != s[j]
  }

  ghost function Elements<T>(s: seq<T>): set<T> {
    set x | x in s
  }

  lemma {:induction false} Member<T>(s: set<T>) returns (x: T)
    requires s != {}
    ensures x in s
  {
    x :| x in s;
  }

  lemma {:induction false} DistinctSize<T>(s: seq<T>)
    requires Distinct(s)
    ensures |Elements(s)| == |s|
  {
    if s == [] {
      assert Elements(s) == {};
    } else {
      var front, last := s[..|s| - 1], s[|s| - 1];
      assert s == front + [last];
      DistinctSize(front);
      assert last !in front;
      assert Elements(s) == Elements(front) + {last};
    }
  }

  ghost predicate Apart<T>(a: seq<T>, b: seq<T>) {
    forall x :: x in a ==> x !in b
  }

  lemma {:induction false} DistinctAppend<T>(a: seq<T>, b: seq<T>)
    ensures Distinct(a) && Distinct(b) && Apart(a, b) ==> Distinct(a + b)
  {
    if Distinct(a) && Distinct(b) && Apart(a, b) {
      forall i, j | 0 <= i < j < |a + b| ensures (a + b)[i] != (a + b)[j] {
        if i < |a| <= j { assert a[i] in a && b[j - |a|] in b; }
      }
    }
  }

  /** `s` without its first occurrence of `x`. */
  function RemoveFirst<T(==)>(s: seq<T>, x: T): seq<T> {
    if s == [] then [] else if s[0] == x then s[1..] else [s[0]] + RemoveFirst(s[1..], x)
  }

  lemma {:induction false} RemoveFirstAt<T>(s: seq<T>, i: nat)
    requires i < |s| && s[i] !in s[..i]
    ensures RemoveFirst(s, s[i]) == s[..i] + s[i + 1..]
  {
    if i > 0 {
      assert s[1..][i - 1] == s[i] && s[1..][..i - 1] == s[..i][1..];
      assert s[0] == s[..i][0];
      RemoveFirstAt(s[1..], i - 1);
      assert s[..i] == [s[0]] + s[1..][..i - 1];
    }
  }

  lemma {:induction false} RemoveFirstAbsent<T>(s: seq<T>, x: T)
    requires x !in s
    ensures RemoveFirst(s, x) == s
  {
    if s != [] {
      RemoveFirstAbsent(s[1..], x);
    }
  }

  lemma {:induction false} RemoveFirstDistinct<T>(s: seq<T>, x: T)
    requires Distinct(s)
    ensures Distinct(RemoveFirst(s, x))
    ensures forall y :: y in RemoveFirst(s, x) <==> y in s && y != x
  {
    if s != [] {
      var rest := s[1..];
      assert forall y :: y in s <==> y == s[0] || y in rest;
      assert s[0] !in rest;
      if s[0] != x {
        RemoveFirstDistinct(rest, x);
        DistinctAppend([s[0]], RemoveFirst(rest, x));
      }
    }
  }

  function RemoveAll<T(==)>(s: seq<T>, xs: seq<T>): seq<T> {
    if xs == [] then s else RemoveFirst(RemoveAll(s, xs[..|xs| - 1]), xs[|xs| - 1])
  }

  lemma {:induction false} RemoveAllDistinct<T>(s: seq<T>, xs: seq<T>)
    requires Distinct(s)
    ensures Distinct(RemoveAll(s, xs))
    ensures forall y :: y in RemoveAll(s, xs) <==> y in s && y !in xs
  {
    if xs != [] {
      var front := xs[..|xs| - 1];
      RemoveAllDistinct(s, front);
      RemoveFirstDistinct(RemoveAll(s, front), xs[|xs| - 1]);
      assert xs == front + [xs[|xs| - 1]];
    }
  }

  lemma {:induction false} RemoveAllAppend<T>(s: seq<T>, xs: seq<T>, ys: seq<T>)
    ensures RemoveAll(s, xs + ys) == RemoveAll(RemoveAll(s, xs), ys)
  {
    if ys == [] {
      assert xs + ys == xs;
    } else {
      RemoveAllAppend(s, xs, ys[..|ys| - 1]);
      assert (xs + ys)[..|xs + ys| - 1] == xs + ys[..|ys| - 1];
    }
  }

  lemma {:induction false} RemoveAllPart<T>(s: seq<T>, xs: seq<T>)
    ensures forall y :: y in RemoveAll(s, xs) ==> y in s
  {
    if xs != [] {
      RemoveAllPart(s, xs[..|xs| - 1]);
      RemoveFirstPart(RemoveAll(s, xs[..|xs| - 1]), xs[|xs| - 1]);
    }
  }

  lemma {:induction false} RemoveAllEmpty<T>(xs: seq<T>)
    ensures RemoveAll([], xs) == []
  {
    if xs != [] { RemoveAllEmpty(xs[..|xs| - 1]); }
  }

  lemma {:induction false} RemoveFirstPart<T>(s: seq<T>, x: T)
    ensures forall y :: y in RemoveFirst(s, x) ==> y in s
  {
    if s != [] { RemoveFirstPart(s[1..], x); }
  }

  ghost predicate Ascending(s: seq<int>) {
    forall i, j :: 0 <= i < j < |s| ==> s[i] < s[j]
  }

  lemma {:induction false} Least(s: set<int>) returns (m: int)
    requires s != {}
    ensures m in s && forall x :: x in s ==> m <= x
  {
    m := Member(s);
    var rest := s - {m};
    var first := m;
    if rest != {} {
      var n := Least(rest);
      m := if n < m then n else m;
    }
    forall x | x in s ensures m <= x {
      if x != first { assert x in rest; }
    }
  }

  lemma {:induction false} Greatest(s: set<int>) returns (m: int)
    requires s != {}
    ensures m in s && forall x :: x in s ==> x <= m
  {
    m := Member(s);
    var first, rest := m, s - {m};
    if rest != {} {
      var n := Greatest(rest);
      m := if n > m then n else m;
    }
    forall x | x in s ensures x <= m {
      if x != first { assert x in rest; }
    }
  }

  lemma {:induction false} SubsetSize<T>(a: set<T>, b: set<T>)
    requires a <= b
    ensures |a| <= |b|
  {
    assert b == a + (b - a);
  }

  /** The elements of `s` in increasing order. */
  ghost function Sorted(s: set<int>): (r: seq<int>)
    ensures Ascending(r) && Elements(r) == s
  {
    if s == {} then []
    else
      assert exists m :: m in s && forall x :: x in s ==> m <= x by { var m := Least(s); }
      var m :| m in s && forall x :: x in s ==> m <= x;
      SortedCons(m, Sorted(s - {m}));
      [m] + Sorted(s - {m})
  }

  lemma {:induction false} SortedCons(m: int, rest: seq<int>)
    requires Ascending(rest) && m !in rest && forall x :: x in Elements(rest) ==> m <= x
    ensures Ascending([m] + rest) && Elements([m] + rest) == Elements(rest) + {m}
  {
    assert forall i :: 0 <= i < |rest| ==> rest[i] in Elements(rest);
  }

  lemma {:induction false} SortedUnique(r: seq<int>, q: seq<int>)
    requires Ascending(r) && Ascending(q) && Elements(r) == Elements(q)
    ensures r == q
  {
    DistinctSize(r);
    DistinctSize(q);
    if r != [] {
      assert r[0] in Elements(q) && q[0] in Elements(r);
      assert Elements(r[1..]) == Elements(r) - {r[0]} && Elements(q[1..]) == Elements(q) - {q[0]};
      SortedUnique(r[1..], q[1..]);
    }
  }
}
