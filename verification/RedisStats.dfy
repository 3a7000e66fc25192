/** The Redis hit counters of ext/redisx/stats.go: one hash per day, dropped when its TTL runs out. */
module RedisStats {
  import opened Links
  import opened Stats

  const DAY := 24 * 3600 * SECOND

  function DayOf(t: int): int {
    t / DAY
  }

  /** A day hash and the time from which the server no longer has it. */
  datatype Hash = Hash(counts: Deltas, deadline: int)

  type Hashes = map<int, Hash>

  /** Counts start from what is alive; every write sets the TTL again, one day over the retention. */
  function Written(hashes: Hashes, retention: int, day: int, deltas: Deltas, now: int): Hashes {
    if |deltas| == 0 then hashes
    else hashes[day := Hash(Plus(View(hashes, now, day), deltas), now + (retention + 1) * DAY)]
  }

  function View(hashes: Hashes, now: int, day: int): Deltas {
    if day in hashes && now < hashes[day].deadline then hashes[day].counts else map[]
  }

  /** What queries at a time can see. */
  function Visible(hashes: Hashes, now: int): Data {
    map day | day in hashes && now < hashes[day].deadline :: hashes[day].counts
  }

  class RedisShortLinkStats {
    var hashes: Hashes
    const retentionDays: int
    const clock: Clock

    constructor (clock: Clock, retentionDays: int)
      ensures hashes == map[] && this.clock == clock && this.retentionDays == retentionDays
    {
      hashes := map[];
      this.clock, this.retentionDays := clock, retentionDays;
    }

    /** One pipeline: an increment per code, then the TTL. */
    method IncrBatch(day: int, deltas: Deltas)
      modifies this, clock
      ensures old(clock.now) <= clock.now
      ensures hashes == Written(old(hashes), retentionDays, day, deltas, clock.now)
    {
      if |deltas| == 0 {
        return;
      }
      var now := clock.Read();
      var counts := IncrementAll(View(hashes, now, day), deltas);
      hashes := hashes[day := Hash(counts, now + (retentionDays + 1) * DAY)];
    }

    /** One increment per code, in any order. */
    method IncrementAll(base: Deltas, deltas: Deltas) returns (counts: Deltas)
      ensures counts == Plus(base, deltas)
    {
      counts := base;
      var remaining := deltas.Keys;
      while remaining != {}
        invariant remaining <= deltas.Keys && Adding(base, deltas, remaining, counts)
      {
        var code :| code in remaining;
        AddingNext(base, deltas, remaining, counts, code);
        counts := counts[code := Val(counts, code) + deltas[code]];
        remaining := remaining - {code};
      }
      AddingDone(base, deltas, counts);
    }

    /** One HGET per day; a missing key or field and a zero are left out. */
    method Get(code: string, days: seq<int>) returns (out: map<int, int>)
      modifies clock
      ensures old(clock.now) <= clock.now && out == CodeCounts(Visible(hashes, clock.now), code, days)
    {
      out := map[];
      if |days| == 0 {
        return;
      }
      var now := clock.Read();
      for i := 0 to |days|
        modifies {}
        invariant out == CodeCounts(Visible(hashes, now), code, days[..i])
      {
        CodeCountsNext(Visible(hashes, now), code, days, i);
        var day := days[i];
        if day in hashes && now < hashes[day].deadline && code in hashes[day].counts && hashes[day].counts[code] != 0 {
          out := out[day := hashes[day].counts[code]];
        }
      }
      assert days[..|days|] == days;
    }

    /** One HMGET per day; missing keys and fields and zeros are left out. */
    method BatchGet(codes: seq<string>, days: seq<int>) returns (out: map<string, map<int, int>>)
      modifies clock
      ensures old(clock.now) <= clock.now && out == BatchCounts(Visible(hashes, clock.now), codes, days)
    {
      out := map[];
      if |codes| == 0 || |days| == 0 {
        return;
      }
      var now := clock.Read();
      var data := Visible(hashes, now);
      assert forall code :: CodeCounts(data, code, []) == map[];
      for i := 0 to |days|
        modifies {}
        invariant out == BatchCounts(data, codes, days[..i])
      {
        out := BatchDay(data, codes, days, i, out);
      }
      assert days[..|days|] == days;
    }
  }

  // ---- retention ----

  /** A flush as the recorder makes it: its time, the day it is keyed by, and the merged counts. */
  datatype Flush = Flush(at: int, batch: Batch)

  function Redis(retention: int, history: seq<Flush>): Hashes {
    if history == [] then map[]
    else
      var last := history[|history| - 1];
      Written(Redis(retention, history[..|history| - 1]), retention, last.batch.day, last.batch.deltas, last.at)
  }

  function Batches(history: seq<Flush>): seq<Batch> {
    if history == [] then [] else Batches(history[..|history| - 1]) + [history[|history| - 1].batch]
  }

  /** Flushes in time order, each executed during the day it is keyed by. */
  ghost predicate Timely(history: seq<Flush>) {
    && (forall i :: 0 <= i < |history| ==> history[i].batch.day == DayOf(history[i].at))
    && (forall i, j :: 0 <= i < j < |history| ==> history[i].at <= history[j].at)
  }

  ghost predicate NotBefore(now: int, history: seq<Flush>) {
    forall i :: 0 <= i < |history| ==> history[i].at <= now
  }

  /** The last `days` day numbers up to today, ascending. */
  function Window(now: int, days: int): seq<int> {
    if days <= 0 then [] else seq(days, i => DayOf(now) - days + 1 + i)
  }

  /** The hash of a day stays for `retention` days after the day. */
  predicate LivesOn(hash: Hash, day: int, retention: int) {
    (day + retention + 1) * DAY <= hash.deadline
  }

  /** Every day hash holds the untrimmed counts and lives on. */
  ghost predicate KeepsUp(hashes: Hashes, data: Data, retention: int) {
    && hashes.Keys == data.Keys
    && forall day :: day in hashes ==> hashes[day].counts == data[day] && LivesOn(hashes[day], day, retention)
  }

  /** All queries over a window of that many days agree with the untrimmed store. */
  ghost predicate WindowRefines(retention: int, window: int) {
    forall history, now, code :: Timely(history) && NotBefore(now, history) ==>
      CodeCounts(Visible(Redis(retention, history), now), code, Window(now, window))
        == CodeCounts(Stored(Batches(history)), code, Window(now, window))
  }
}
