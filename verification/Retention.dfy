/** Why the TTL-trimmed counters answer like untrimmed ones, and for which windows. */
module Retention {
  import opened Stats
  import opened RedisStats

  /** A day has 86,400 seconds. */
  lemma {:induction false} DayBounds(t: int)
    ensures DayOf(t) * DAY <= t < (DayOf(t) + 1) * DAY && DAY == 86_400_000_000_000
  {
  }

  lemma {:induction false} WrittenKeepsUp(hashes: Hashes, data: Data, retention: int, flush: Flush)
    requires KeepsUp(hashes, data, retention) && retention >= 0 && flush.batch.day == DayOf(flush.at)
    ensures KeepsUp(Written(hashes, retention, flush.batch.day, flush.batch.deltas, flush.at),
                    Merged(data, flush.batch.day, flush.batch.deltas), retention)
  {
    var day, deltas, now := flush.batch.day, flush.batch.deltas, flush.at;
    if |deltas| != 0 {
      var base := if day in data then data[day] else map[];
      if day in hashes {
        assert LivesOn(hashes[day], day, retention);
        OnItsDay(hashes[day], now, retention);
      }
      assert View(hashes, now, day) == base;
      WrittenLivesOn(Plus(base, deltas), now, retention);
      KeepsUpNext(hashes, data, retention, day, Hash(Plus(base, deltas), now + (retention + 1) * DAY));
    }
  }

  lemma {:induction false} KeepsUpNext(hashes: Hashes, data: Data, retention: int, day: int, hash: Hash)
    requires KeepsUp(hashes, data, retention) && LivesOn(hash, day, retention)
    ensures KeepsUp(hashes[day := hash], data[day := hash.counts], retention)
  {
  }

  lemma {:induction false} OnItsDay(hash: Hash, now: int, retention: int)
    requires LivesOn(hash, DayOf(now), retention) && retention >= 0
    ensures now < hash.deadline
  {
    DayBounds(now);
  }

  lemma {:induction false} WrittenLivesOn(counts: Deltas, now: int, retention: int)
    ensures LivesOn(Hash(counts, now + (retention + 1) * DAY), DayOf(now), retention)
  {
    DayBounds(now);
  }

  lemma {:induction false} KeepsUpThroughout(retention: int, history: seq<Flush>)
    requires retention >= 0 && Timely(history)
    ensures KeepsUp(Redis(retention, history), Stored(Batches(history)), retention)
  {
    if history != [] {
      var front, last := history[..|history| - 1], history[|history| - 1];
      KeepsUpThroughout(retention, front);
      WrittenKeepsUp(Redis(retention, front), Stored(Batches(front)), retention, last);
      assert Batches(history)[..|Batches(front)|] == Batches(front);
    }
  }

  lemma {:induction false} StillAlive(hash: Hash, day: int, now: int, retention: int)
    requires LivesOn(hash, day, retention) && day + retention >= DayOf(now)
    ensures now < hash.deadline
  {
    DayBounds(now);
  }

  /**
    A query asks for the days up to `asked` and is answered at `now`. While window and the days
    passed in between stay within the retention and one day, every day hash is alive and the
    trimmed store shows the untrimmed counts.
   */
  lemma {:induction false} WindowIsAlive(retention: int, history: seq<Flush>, asked: int, now: int, window: int,
          code: string)
    requires retention >= 0 && Timely(history) && window + DayOf(now) - DayOf(asked) <= retention + 1
    ensures CodeCounts(Visible(Redis(retention, history), now), code, Window(asked, window))
      == CodeCounts(Stored(Batches(history)), code, Window(asked, window))
  {
    var hashes, data := Redis(retention, history), Stored(Batches(history));
    KeepsUpThroughout(retention, history);
    forall day | day in Window(asked, window) ensures Count(Visible(hashes, now), day, code) == Count(data, day, code) {
      assert day >= DayOf(asked) - window + 1;
      if day in hashes {
        assert LivesOn(hashes[day], day, retention);
        StillAlive(hashes[day], day, now, retention);
      }
    }
  }

  /** A window two days longer than the retention outlives a hash written once: its counts are lost. */
  lemma {:induction false} LongWindowLoses(retention: int, window: int, deltas: Deltas, code: string)
    requires retention >= 0 && window > retention + 1 && Val(deltas, code) != 0
    ensures var history, now := [Flush(0, Batch(0, deltas))], (window - 1) * DAY;
      && Timely(history) && NotBefore(now, history)
      && CodeCounts(Visible(Redis(retention, history), now), code, Window(now, window))
        != CodeCounts(Stored(Batches(history)), code, Window(now, window))
  {
    WindowReaches(window);
    assert (retention + 1) * DAY <= (window - 1) * DAY;
    ExpiredHashLoses(retention, Flush(0, Batch(0, deltas)), (window - 1) * DAY,
      Window((window - 1) * DAY, window), code);
  }

  lemma {:induction false} ExpiredHashLoses(retention: int, flush: Flush, now: int, days: seq<int>, code: string)
    requires flush.at == 0 && flush.batch.day == 0 && Val(flush.batch.deltas, code) != 0
    requires 0 in days && now >= 0 && now >= (retention + 1) * DAY
    ensures Timely([flush]) && NotBefore(now, [flush])
    ensures CodeCounts(Visible(Redis(retention, [flush]), now), code, days)
      != CodeCounts(Stored(Batches([flush])), code, days)
  {
    assert |flush.batch.deltas| != 0 by { assert code in flush.batch.deltas.Keys; }
    OneFlush(retention, flush);
    TrimmedHash(retention, now, flush.batch.deltas, code);
    CountsDiffer(Stored(Batches([flush])), Visible(Redis(retention, [flush]), now), 0, code, days);
    FlushAtZero(flush, now);
  }

  lemma {:induction false} FlushAtZero(flush: Flush, now: int)
    requires flush.at == 0 && flush.batch.day == 0 && now >= 0
    ensures Timely([flush]) && NotBefore(now, [flush])
  {
  }

  lemma {:induction false} TrimmedHash(retention: int, now: int, deltas: Deltas, code: string)
    requires now >= (retention + 1) * DAY
    ensures Count(Visible(map[0 := Hash(Plus(map[], deltas), 0 + (retention + 1) * DAY)], now), 0, code) == 0
    ensures Count(map[0 := Plus(map[], deltas)], 0, code) == Val(deltas, code)
  {
  }

  lemma {:induction false} WindowReaches(window: int)
    requires window >= 1
    ensures 0 in Window((window - 1) * DAY, window)
  {
    assert DayOf((window - 1) * DAY) == window - 1;
    assert Window((window - 1) * DAY, window)[0] == 0;
  }

  lemma {:induction false} CountsDiffer(a: Data, b: Data, day: int, code: string, days: seq<int>)
    requires day in days && Count(a, day, code) != 0 && Count(b, day, code) == 0
    ensures CodeCounts(a, code, days) != CodeCounts(b, code, days)
  {
    assert day in CodeCounts(a, code, days) && day !in CodeCounts(b, code, days);
  }

  lemma {:induction false} OneFlush(retention: int, flush: Flush)
    requires |flush.batch.deltas| != 0
    ensures Redis(retention, [flush])
      == map[flush.batch.day := Hash(Plus(map[], flush.batch.deltas), flush.at + (retention + 1) * DAY)]
    ensures Stored(Batches([flush])) == map[flush.batch.day := Plus(map[], flush.batch.deltas)]
  {
    assert [flush][..0] == [];
    FirstWritten(retention, flush.batch.day, flush.batch.deltas, flush.at);
    OneBatch(flush.batch);
    OnlyBatch(flush);
  }

  lemma {:induction false} FirstWritten(retention: int, day: int, deltas: Deltas, now: int)
    requires |deltas| != 0
    ensures Written(map[], retention, day, deltas, now)
      == map[day := Hash(Plus(map[], deltas), now + (retention + 1) * DAY)]
  {
  }

  lemma {:induction false} OnlyBatch(flush: Flush)
    ensures Batches([flush]) == [flush.batch]
  {
    assert [flush][..0] == [];
  }

  lemma {:induction false} OneBatch(batch: Batch)
    requires |batch.deltas| != 0
    ensures Stored([batch]) == map[batch.day := Plus(map[], batch.deltas)]
  {
    assert [batch][..0] == [] && Stored([]) == map[];
  }

  /**
    For timely flushes the trimmed store answers every window query like the untrimmed one exactly
    when the window is at most one day longer than the backend's retention. So the documented
    condition, retention at least the window, suffices with a day to spare.
   */
  lemma {:induction false} RetentionRefinesIff(retention: int, window: int)
    requires retention >= 0
    ensures WindowRefines(retention, window) <==> window <= retention + 1
  {
    if window <= retention + 1 {
      forall history, now, code | Timely(history) && NotBefore(now, history)
        ensures CodeCounts(Visible(Redis(retention, history), now), code, Window(now, window))
          == CodeCounts(Stored(Batches(history)), code, Window(now, window))
      {
        WindowIsAlive(retention, history, now, now, window, code);
      }
    } else {
      LongWindowLoses(retention, window, map["a" := 1], "a");
    }
  }

  /** The same for batch queries. */
  lemma {:induction false} BatchRetention(retention: int, history: seq<Flush>, asked: int, now: int, window: int,
          codes: seq<string>)
    requires retention >= 0 && Timely(history) && window + DayOf(now) - DayOf(asked) <= retention + 1
    ensures BatchCounts(Visible(Redis(retention, history), now), codes, Window(asked, window))
      == BatchCounts(Stored(Batches(history)), codes, Window(asked, window))
  {
    forall code ensures CodeCounts(Visible(Redis(retention, history), now), code, Window(asked, window))
      == CodeCounts(Stored(Batches(history)), code, Window(asked, window))
    {
      WindowIsAlive(retention, history, asked, now, window, code);
    }
  }
}

/** The service's statistics queries over Redis (cores/service.go). */
module StatsQuery {
  import opened Collections
  import opened Stats
  import opened RedisStats
  import opened Recorder
  import opened Retention

  /** Flushes on their day, a backend that retains as long as the service asks, and an answer by the next day. */
  ghost predicate Answerable(stats: RedisShortLinkStats, statsRetentionDays: int, history: seq<Flush>, asked: int)
    reads stats.clock
  {
    Timely(history) && stats.retentionDays >= statsRetentionDays && DayOf(stats.clock.now) <= DayOf(asked) + 1
  }

  /** The last `w` days up to `today` with a non-zero sum of what was sent for the code, and that sum. */
  ghost predicate DailySums(out: map<int, int>, history: seq<Batch>, code: string, today: int, w: int) {
    && (forall d :: d in out <==> today - w < d <= today && Sent(history, d, code) != 0)
    && (forall d :: d in out ==> out[d] == Sent(history, d, code))
  }

  ghost predicate HasDay(history: seq<Batch>, code: string, today: int, w: int) {
    exists d :: today - w < d <= today && Sent(history, d, code) != 0
  }

  /** That for each requested code with such a day. */
  ghost predicate BatchSums(out: map<string, map<int, int>>, history: seq<Batch>, codes: seq<string>, today: int,
          w: int) {
    && (forall code :: code in out <==> code in codes && HasDay(history, code, today, w))
    && (forall code :: code in out ==> DailySums(out[code], history, code, today, w))
  }

  lemma {:induction false} WindowDays(now: int, w: int, d: int)
    ensures d in Window(now, w) <==> DayOf(now) - w < d <= DayOf(now)
  {
    if DayOf(now) - w < d <= DayOf(now) { assert Window(now, w)[d - DayOf(now) + w - 1] == d; }
  }

  lemma {:induction false} WindowSums(history: seq<Batch>, code: string, asked: int, w: int)
    ensures DailySums(CodeCounts(Stored(history), code, Window(asked, w)), history, code, DayOf(asked), w)
  {
    forall d ensures Count(Stored(history), d, code) == Sent(history, d, code)
      && (d in Window(asked, w) <==> DayOf(asked) - w < d <= DayOf(asked))
    {
      CountIsSent(history, d, code);
      WindowDays(asked, w, d);
    }
  }

  lemma {:induction false} SumsOrNone(out: map<int, int>, history: seq<Batch>, code: string, today: int, w: int)
    requires DailySums(out, history, code, today, w)
    ensures out != map[] <==> HasDay(history, code, today, w)
  {
    if out != map[] {
      assert out.Keys != {};
      var d := Member(out.Keys);
      assert today - w < d <= today && Sent(history, d, code) != 0;
    }
    if HasDay(history, code, today, w) {
      var d :| today - w < d <= today && Sent(history, d, code) != 0;
      assert d in out;
    }
  }

  lemma {:induction false} BatchWindowSums(history: seq<Batch>, codes: seq<string>, asked: int, w: int)
    ensures BatchSums(BatchCounts(Stored(history), codes, Window(asked, w)), history, codes, DayOf(asked), w)
  {
    forall code ensures var counts := CodeCounts(Stored(history), code, Window(asked, w));
      && DailySums(counts, history, code, DayOf(asked), w)
      && (counts != map[] <==> HasDay(history, code, DayOf(asked), w))
    {
      WindowSums(history, code, asked, w);
      SumsOrNone(CodeCounts(Stored(history), code, Window(asked, w)), history, code, DayOf(asked), w);
    }
  }

  /** Nothing is "code is empty". `asked` is when the window was fixed; midnight may pass before Redis answers. */
  method GetStats(stats: RedisShortLinkStats, statsRetentionDays: int, code: string, days: int,
          ghost history: seq<Flush>)
    returns (out: Option<map<int, int>>, ghost asked: int)
    requires statsRetentionDays >= 1 && stats.hashes == Redis(stats.retentionDays, history)
    modifies stats.clock
    ensures old(stats.clock.now) <= asked <= stats.clock.now
    ensures out.None? <==> code == ""
    ensures out.Some? && Answerable(stats, statsRetentionDays, history, asked) ==>
      DailySums(out.value, Batches(history), code, DayOf(asked),
                if 1 <= days <= statsRetentionDays then days else statsRetentionDays)
  {
    asked := stats.clock.now;
    if code == "" {
      return None, asked;
    }
    var window := if days <= 0 || days > statsRetentionDays then statsRetentionDays else days;
    var now := stats.clock.Read();
    asked := now;
    var list := DayList(now, window);
    var counts := stats.Get(code, list);
    if Answerable(stats, statsRetentionDays, history, asked) {
      WindowIsAlive(stats.retentionDays, history, asked, stats.clock.now, window, code);
      WindowSums(Batches(history), code, asked, window);
    }
    out := Some(counts);
  }

  /** Nothing is "codes is empty". */
  method BatchGetStats(stats: RedisShortLinkStats, statsRetentionDays: int, codes: seq<string>, days: int,
          ghost history: seq<Flush>)
    returns (out: Option<map<string, map<int, int>>>, ghost asked: int)
    requires statsRetentionDays >= 1 && stats.hashes == Redis(stats.retentionDays, history)
    modifies stats.clock
    ensures old(stats.clock.now) <= asked <= stats.clock.now
    ensures out.None? <==> codes == []
    ensures out.Some? && Answerable(stats, statsRetentionDays, history, asked) ==>
      BatchSums(out.value, Batches(history), codes, DayOf(asked),
                if 1 <= days <= statsRetentionDays then days else statsRetentionDays)
  {
    asked := stats.clock.now;
    if |codes| == 0 {
      return None, asked;
    }
    var window := if days <= 0 || days > statsRetentionDays then statsRetentionDays else days;
    var now := stats.clock.Read();
    asked := now;
    var list := DayList(now, window);
    var counts := stats.BatchGet(codes, list);
    if Answerable(stats, statsRetentionDays, history, asked) {
      BatchRetention(stats.retentionDays, history, asked, stats.clock.now, window, codes);
      BatchWindowSums(Batches(history), codes, asked, window);
    }
    out := Some(counts);
  }
}
