/** Daily hit counters: the in-memory backend of ext/memx/stats.go and what its queries mean. */
module Stats {

  type Deltas = map<string, int>

  /** day -> code -> count; days are numbered. */
  type Data = map<int, Deltas>

  function Val(m: Deltas, code: string): int {
    if code in m then m[code] else 0
  }

  function Count(data: Data, day: int, code: string): int {
    if day in data then Val(data[day], code) else 0
  }

  function Plus(m: Deltas, deltas: Deltas): Deltas {
    map code | code in m.Keys + deltas.Keys :: Val(m, code) + Val(deltas, code)
  }

  /** An empty batch leaves no trace, not even of its day. */
  function Merged(data: Data, day: int, deltas: Deltas): Data {
    if |deltas| == 0 then data
    else data[day := Plus(if day in data then data[day] else map[], deltas)]
  }

  /** The non-zero counts of one code on the given days. */
  function CodeCounts(data: Data, code: string, days: seq<int>): map<int, int> {
    map day | day in days && Count(data, day, code) != 0 :: Count(data, day, code)
  }

  /** For each requested code with a non-zero count on some day, its own query result. */
  function BatchCounts(data: Data, codes: seq<string>, days: seq<int>): map<string, map<int, int>> {
    map code | code in codes && CodeCounts(data, code, days) != map[] :: CodeCounts(data, code, days)
  }

  class MemoryShortLinkStats {
    var data: Data

    constructor ()
      ensures data == map[]
    {
      data := map[];
    }

    method IncrBatch(day: int, deltas: Deltas)
      modifies this
      ensures data == Merged(old(data), day, deltas)
    {
      if |deltas| == 0 {
        return;
      }
      if day !in data {
        data := data[day := map[]];
      }
      ghost var base := data[day];
      var remaining := deltas.Keys;
      while remaining != {}
        invariant remaining <= deltas.Keys && day in data && data == old(data)[day := data[day]]
        invariant Adding(base, deltas, remaining, data[day])
      {
        var code :| code in remaining;
        AddingNext(base, deltas, remaining, data[day], code);
        data := data[day := data[day][code := Val(data[day], code) + deltas[code]]];
        remaining := remaining - {code};
      }
      AddingDone(base, deltas, data[day]);
    }

    method Get(code: string, days: seq<int>) returns (out: map<int, int>)
      ensures out == CodeCounts(data, code, days)
    {
      out := map[];
      for i := 0 to |days|
        invariant out == CodeCounts(data, code, days[..i])
      {
        CodeCountsNext(data, code, days, i);
        var day := days[i];
        if day in data {
          if code in data[day] && data[day][code] != 0 {
            out := out[day := data[day][code]];
          }
        }
      }
      assert days[..|days|] == days;
    }

    /** Equals one query per code, for repeated codes and days too. */
    method BatchGet(codes: seq<string>, days: seq<int>) returns (out: map<string, map<int, int>>)
      ensures out == BatchCounts(data, codes, days)
    {
      out := map[];
      assert forall code :: CodeCounts(data, code, []) == map[];
      for i := 0 to |days|
        invariant out == BatchCounts(data, codes, days[..i])
      {
        out := BatchDay(data, codes, days, i, out);
      }
      assert days[..|days|] == days;
    }
  }

  /** The inner loop: one day for all codes. */
  method BatchDay(data: Data, codes: seq<string>, days: seq<int>, i: nat, before: map<string, map<int, int>>)
    returns (out: map<string, map<int, int>>)
    requires i < |days| && before == BatchCounts(data, codes, days[..i])
    ensures out == BatchCounts(data, codes, days[..i + 1])
  {
    out := before;
    var day := days[i];
    if day !in data {
      AbsentDay(data, codes, days, i);
      return;
    }
    PartialStart(data, codes, days, i);
    for j := 0 to |codes|
      invariant out == Partial(data, codes, days, i, j)
    {
      var code := codes[j];
      PartialNext(data, codes, days, i, j);
      if code in data[day] && data[day][code] != 0 {
        var dayMap := if code in out then out[code] else map[];
        out := out[code := dayMap[day := data[day][code]]];
      }
    }
    PartialEnd(data, codes, days, i);
  }

  // ---- draining ----

  /** Map and channel together hold what the map held and every code of `codes`, each once per occurrence. */
  ghost predicate Gathered(before: Deltas, codes: seq<string>, merge: Deltas, ch: seq<string>) {
    forall code :: Val(merge, code) + multiset(ch)[code] == Val(before, code) + multiset(codes)[code]
  }

  lemma {:induction false} GatheredStart(merge: Deltas, ch: seq<string>)
    ensures Gathered(merge, ch + [], merge, ch)
  {
    assert ch + [] == ch;
  }

  lemma {:induction false} GatheredTake(before: Deltas, codes: seq<string>, merge: Deltas, ch: seq<string>)
    requires Gathered(before, codes, merge, ch) && ch != []
    ensures Gathered(before, codes, merge[ch[0] := Val(merge, ch[0]) + 1], ch[1..])
  {
    assert ch == [ch[0]] + ch[1..];
  }

  lemma {:induction false} GatheredMore(before: Deltas, ch: seq<string>, arrived: seq<string>, merge: Deltas,
          now: seq<string>, more: seq<string>)
    requires Gathered(before, ch + arrived, merge, now)
    ensures Gathered(before, ch + (arrived + more), merge, now + more)
  {
    assert ch + (arrived + more) == ch + arrived + more;
  }

  // ---- loops ----

  /** `now` is `base` with the deltas added that no longer remain. */
  ghost predicate Adding(base: Deltas, deltas: Deltas, remaining: set<string>, now: Deltas) {
    && now.Keys == base.Keys + (deltas.Keys - remaining)
    && forall c :: c in now ==> now[c] == Val(base, c) + if c in remaining then 0 else Val(deltas, c)
  }

  lemma {:induction false} AddingNext(base: Deltas, deltas: Deltas, remaining: set<string>, now: Deltas, code: string)
    requires Adding(base, deltas, remaining, now) && code in remaining && remaining <= deltas.Keys
    ensures Adding(base, deltas, remaining - {code}, now[code := Val(now, code) + deltas[code]])
  {
  }

  lemma {:induction false} AddingDone(base: Deltas, deltas: Deltas, now: Deltas)
    requires Adding(base, deltas, {}, now)
    ensures now == Plus(base, deltas)
  {
  }

  lemma {:induction false} CodeCountsNext(data: Data, code: string, days: seq<int>, i: nat)
    requires i < |days|
    ensures CodeCounts(data, code, days[..i + 1]) ==
      if Count(data, days[i], code) == 0 then CodeCounts(data, code, days[..i])
      else CodeCounts(data, code, days[..i])[days[i] := Count(data, days[i], code)]
  {
    assert days[..i + 1] == days[..i] + [days[i]];
  }

  /** The counts of a code once the inner loop of day `i` has passed the first `j` codes. */
  function PartialCounts(data: Data, codes: seq<string>, days: seq<int>, i: nat, j: nat, code: string): map<int, int>
    requires i < |days| && j <= |codes|
  {
    CodeCounts(data, code, if code in codes[..j] then days[..i + 1] else days[..i])
  }

  function Partial(data: Data, codes: seq<string>, days: seq<int>, i: nat, j: nat): map<string, map<int, int>>
    requires i < |days| && j <= |codes|
  {
    map code | code in codes && PartialCounts(data, codes, days, i, j, code) != map[]
      :: PartialCounts(data, codes, days, i, j, code)
  }

  lemma {:induction false} PartialStart(data: Data, codes: seq<string>, days: seq<int>, i: nat)
    requires i < |days|
    ensures Partial(data, codes, days, i, 0) == BatchCounts(data, codes, days[..i])
  {
  }

  lemma {:induction false} PartialEnd(data: Data, codes: seq<string>, days: seq<int>, i: nat)
    requires i < |days|
    ensures Partial(data, codes, days, i, |codes|) == BatchCounts(data, codes, days[..i + 1])
  {
    assert codes[..|codes|] == codes;
  }

  lemma {:induction false} AbsentDay(data: Data, codes: seq<string>, days: seq<int>, i: nat)
    requires i < |days| && days[i] !in data
    ensures BatchCounts(data, codes, days[..i + 1]) == BatchCounts(data, codes, days[..i])
  {
    forall code ensures CodeCounts(data, code, days[..i + 1]) == CodeCounts(data, code, days[..i]) {
      CodeCountsNext(data, code, days, i);
    }
  }

  /** What the inner loop does to the result for one code with count `n`. */
  function Extended(out: map<string, map<int, int>>, code: string, day: int, n: int): map<string, map<int, int>> {
    if n == 0 then out else out[code := (if code in out then out[code] else map[])[day := n]]
  }

  lemma {:induction false} PartialNext(data: Data, codes: seq<string>, days: seq<int>, i: nat, j: nat)
    requires i < |days| && j < |codes|
    ensures Partial(data, codes, days, i, j + 1)
      == Extended(Partial(data, codes, days, i, j), codes[j], days[i], Count(data, days[i], codes[j]))
  {
    var after := Partial(data, codes, days, i, j + 1);
    var expected := Extended(Partial(data, codes, days, i, j), codes[j], days[i], Count(data, days[i], codes[j]));
    forall c ensures (c in after <==> c in expected) && (c in after ==> after[c] == expected[c]) {
      PartialNextAt(data, codes, days, i, j, c);
    }
  }

  lemma {:induction false} PartialNextAt(data: Data, codes: seq<string>, days: seq<int>, i: nat, j: nat, c: string)
    requires i < |days| && j < |codes|
    ensures var after := Partial(data, codes, days, i, j + 1);
      var expected := Extended(Partial(data, codes, days, i, j), codes[j], days[i], Count(data, days[i], codes[j]));
      (c in after <==> c in expected) && (c in after ==> after[c] == expected[c])
  {
    var day, n := days[i], Count(data, days[i], codes[j]);
    PartialCountsNext(data, codes, days, i, j, c);
    assert day in PartialCounts(data, codes, days, i, j, c)[day := n];
  }

  lemma {:induction false} PartialCountsNext(data: Data, codes: seq<string>, days: seq<int>, i: nat, j: nat, c: string)
    requires i < |days| && j < |codes|
    ensures var n := Count(data, days[i], codes[j]);
      PartialCounts(data, codes, days, i, j + 1, c) ==
      if c == codes[j] && n != 0 then PartialCounts(data, codes, days, i, j, c)[days[i] := n]
      else PartialCounts(data, codes, days, i, j, c)
  {
    assert codes[..j + 1] == codes[..j] + [codes[j]];
    if c == codes[j] {
      CodeCountsNext(data, c, days, i);
    }
  }

  // ---- meaning over a history of batches ----

  datatype Batch = Batch(day: int, deltas: Deltas)

  function Stored(history: seq<Batch>): Data {
    if history == [] then map[]
    else Merged(Stored(history[..|history| - 1]), history[|history| - 1].day, history[|history| - 1].deltas)
  }

  /** All deltas ever sent for a code on a day. */
  function Sent(history: seq<Batch>, day: int, code: string): int {
    if history == [] then 0
    else
      var last := history[|history| - 1];
      Sent(history[..|history| - 1], day, code) + if last.day == day then Val(last.deltas, code) else 0
  }

  lemma {:induction false} MergedCount(data: Data, day: int, deltas: Deltas, d: int, code: string)
    ensures Count(Merged(data, day, deltas), d, code)
      == Count(data, d, code) + if d == day then Val(deltas, code) else 0
  {
    if |deltas| == 0 { assert deltas.Keys == {}; }
  }

  lemma {:induction false} CountIsSent(history: seq<Batch>, day: int, code: string)
    ensures Count(Stored(history), day, code) == Sent(history, day, code)
  {
    if history != [] {
      var front, last := history[..|history| - 1], history[|history| - 1];
      CountIsSent(front, day, code);
      MergedCount(Stored(front), last.day, last.deltas, day, code);
    }
  }

  /**
    After any batches: a batch query has exactly the requested codes whose single query is not
    empty, with that result; and a single query has the days with a non-zero sum, with the sum.
   */
  lemma {:induction false} QueriesAgree(history: seq<Batch>, codes: seq<string>, days: seq<int>, code: string, day: int)
    ensures var batch, single := BatchCounts(Stored(history), codes, days), CodeCounts(Stored(history), code, days);
      && (code in batch <==> code in codes && single != map[])
      && (code in batch ==> batch[code] == single)
      && (day in single <==> day in days && Sent(history, day, code) != 0)
      && (day in single ==> single[day] == Sent(history, day, code))
  {
    CountIsSent(history, day, code);
  }
}
