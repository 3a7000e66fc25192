/** The hit recorder of cores/stats_recorder.go under every interleaving of its goroutines. */
module Recorder {
  import opened Collections
  import opened Stats
  import opened RedisStats

  datatype Phase = Running | Draining | Drained | Stopped

  /** The channel, the counters, the merge map owned by run, the backend and where run is. */
  datatype State = State(ch: seq<string>, capacity: nat, drops: nat, merge: Deltas, data: Data, phase: Phase)

  /**
    `applied` are the codes whose increments reach the backend: all that are sent, unless its call
    fails. A failed call is only logged.
   */
  datatype Action =
    | Record(code: string)
    | Receive
    | Ticker(day: int, applied: set<string>)
    | Stop
    | DrainOne
    | FinalFlush(day: int, applied: set<string>)

  function Counted(merge: Deltas, code: string): Deltas {
    merge[code := Val(merge, code) + 1]
  }

  function Received(r: State): State
    requires r.ch != []
  {
    r.(ch := r.ch[1..], merge := Counted(r.merge, r.ch[0]))
  }

  function Reaching(merge: Deltas, applied: set<string>): Deltas {
    map code | code in merge && code in applied :: merge[code]
  }

  /** Nothing to send is no flush; otherwise the drop counter is swapped out, error or not. */
  function Flushed(r: State, day: int, applied: set<string>): State {
    if |r.merge| == 0 then r
    else r.(data := Merged(r.data, day, Reaching(r.merge, applied)), drops := 0)
  }

  /** One atomic step; a step that is not possible where run is changes nothing. */
  function Next(r: State, a: Action): State {
    match a
    case Record(code) =>
      if |r.ch| < r.capacity then r.(ch := r.ch + [code]) else r.(drops := r.drops + 1)
    case Receive => if r.phase == Running && r.ch != [] then Received(r) else r
    case Ticker(day, applied) =>
      if r.phase == Running && |r.merge| > 0 then Flushed(r, day, applied).(merge := map[]) else r
    case Stop => if r.phase == Running then r.(phase := Draining) else r
    case DrainOne =>
      if r.phase != Draining then r else if r.ch == [] then r.(phase := Drained) else Received(r)
    case FinalFlush(day, applied) => if r.phase == Drained then Flushed(r, day, applied).(phase := Stopped) else r
  }

  /** A new recorder over a backend that may hold counts already. */
  function Fresh(capacity: nat, data: Data): State {
    State([], capacity, 0, map[], data, Running)
  }

  function Play(r: State, actions: seq<Action>): State {
    if actions == [] then r else Next(Play(r, actions[..|actions| - 1]), actions[|actions| - 1])
  }

  class StatsRecorder {
    var ch: seq<string>
    const bufferSize: nat
    var drops: nat
    /** Local to run in the source; no other goroutine touches it. */
    var merge: Deltas
    /** Where run is: its program counter. */
    ghost var phase: Phase
    const stats: MemoryShortLinkStats

    ghost function Abs(): State
      reads this, stats
    {
      State(ch, bufferSize, drops, merge, stats.data, phase)
    }

    constructor (stats: MemoryShortLinkStats, bufferSize: nat)
      ensures this.stats == stats && bufferSize == this.bufferSize
      ensures Abs() == Fresh(bufferSize, stats.data)
    {
      this.stats, this.bufferSize := stats, bufferSize;
      ch, drops, merge, phase := [], 0, map[], Running;
    }

    /** Called on every redirect; never blocks. */
    method Record(code: string)
      modifies this
      ensures Abs() == Next(old(Abs()), Action.Record(code))
    {
      if |ch| < bufferSize {
        ch := ch + [code];
      } else {
        drops := drops + 1;
      }
    }

    /** The backend call takes the increments of `applied`. */
    method FlushNow(day: int, applied: set<string>)
      modifies this, stats
      ensures Abs() == Flushed(old(Abs()), day, applied)
    {
      if |merge| == 0 {
        return;
      }
      stats.IncrBatch(day, Reaching(merge, applied));
      drops := 0;
    }

    /** Other goroutines call Record any number of times; `before` are the steps so far, `arrived` what was accepted. */
    method Callers(ghost r0: State, ghost before: seq<Action>)
      returns (ghost trace: seq<Action>, ghost arrived: seq<string>)
      requires Abs() == Play(r0, before)
      modifies this
      ensures Abs() == Play(r0, trace) && before <= trace
      ensures phase == old(phase) && merge == old(merge) && drops >= old(drops) && ch == old(ch) + arrived
    {
      var calls: nat :| true;
      trace, arrived := before, [];
      for i := 0 to calls
        invariant Abs() == Play(r0, trace) && before <= trace
        invariant phase == old(phase) && merge == old(merge) && drops >= old(drops) && ch == old(ch) + arrived
      {
        var code: string :| true;
        PlayOne(r0, trace, Action.Record(code));
        arrived := if |ch| < bufferSize then arrived + [code] else arrived;
        Record(code);
        trace := trace + [Action.Record(code)];
      }
    }

    /** merge[code]++ for the code at the head of the channel; `a` is the step that this is. */
    method Take(ghost r0: State, ghost before: seq<Action>, ghost a: Action)
      requires |ch| > 0 && Abs() == Play(r0, before)
      requires a == (if phase == Draining then DrainOne else Receive) && (phase == Running || phase == Draining)
      modifies this
      ensures Abs() == Received(old(Abs())) && Abs() == Play(r0, before + [a])
    {
      PlayOne(r0, before, a);
      merge := merge[ch[0] := Val(merge, ch[0]) + 1];
      ch := ch[1..];
    }

    /** One turn of the select that is not the stop: a code from the channel, or the ticker. */
    method Turn(ghost r0: State, ghost before: seq<Action>) returns (ghost trace: seq<Action>)
      requires Abs() == Play(r0, before) && phase == Running
      modifies this, stats
      ensures Abs() == Play(r0, trace) && phase == Running
      ensures before <= trace && |trace| <= |before| + 1
    {
      trace := before;
      var received: bool := *;
      if received && |ch| > 0 {
        Take(r0, before, Receive);
        trace := before + [Receive];
      } else if |merge| > 0 {
        var day: int := *;
        var applied: set<string> := *;
        PlayOne(r0, before, Ticker(day, applied));
        FlushNow(day, applied);
        merge := map[];
        trace := before + [Ticker(day, applied)];
      }
    }

    /**
      The loop of run until it has returned: `rounds` turns of the select, and then the stop. Calls
      of Record come in between everywhere. `trace` are the steps taken.
     */
    method Run(rounds: nat) returns (ghost trace: seq<Action>)
      requires phase == Running
      modifies this, stats
      ensures Abs() == Play(old(Abs()), trace) && phase == Stopped
    {
      trace := [];
      ghost var r0, arrived := Abs(), [];
      for i := 0 to rounds
        invariant Abs() == Play(r0, trace) && phase == Running
      {
        trace, arrived := Callers(r0, trace);
        trace := Turn(r0, trace);
      }
      PlayOne(r0, trace, Stop);
      phase := Draining;
      trace, arrived := Drain(r0, trace + [Stop]);
      trace, arrived := Callers(r0, trace);
      trace := Return(r0, trace);
    }

    /** The final flush; it leaves the map as it is. */
    method Return(ghost r0: State, ghost before: seq<Action>) returns (ghost trace: seq<Action>)
      requires Abs() == Play(r0, before) && phase == Drained
      modifies this, stats
      ensures Abs() == Play(r0, trace) && phase == Stopped && merge == old(merge)
    {
      var day: int := *;
      var applied: set<string> := *;
      FinalPlay(r0, before, day, applied);
      FlushNow(day, applied);
      phase := Stopped;
      trace := before + [FinalFlush(day, applied)];
    }

    /** Takes codes until the channel is seen empty: everything buffered, and what arrives meanwhile. */
    method Drain(ghost r0: State, ghost before: seq<Action>)
      returns (ghost trace: seq<Action>, ghost arrived: seq<string>)
      requires Abs() == Play(r0, before) && phase == Draining
      modifies this
      ensures Abs() == Play(r0, trace) && phase == Drained && ch == []
      ensures Gathered(old(merge), old(ch) + arrived, merge, [])
    {
      trace, arrived := before, [];
      ghost var merge0, ch0 := merge, ch;
      var late: nat :| true;
      GatheredStart(merge, ch);
      while |ch| > 0
        modifies this
        invariant Abs() == Play(r0, trace) && phase == Draining
        invariant Gathered(merge0, ch0 + arrived, merge, ch)
        decreases late, |ch|
      {
        trace := DrainTurn(r0, trace, merge0, ch0, arrived);
        if late > 0 {
          late := late - 1;
          trace, arrived := LateCallers(r0, trace, merge0, ch0, arrived);
        }
      }
      PlayOne(r0, trace, DrainOne);
      phase := Drained;
      trace := trace + [DrainOne];
    }

    method DrainTurn(ghost r0: State, ghost before: seq<Action>, ghost merge0: Deltas, ghost ch0: seq<string>,
            ghost arrived: seq<string>)
      returns (ghost trace: seq<Action>)
      requires Abs() == Play(r0, before) && phase == Draining && |ch| > 0
      requires Gathered(merge0, ch0 + arrived, merge, ch)
      modifies this
      ensures Abs() == Play(r0, trace) && phase == Draining && |ch| == |old(ch)| - 1
      ensures Gathered(merge0, ch0 + arrived, merge, ch)
    {
      GatheredTake(merge0, ch0 + arrived, merge, ch);
      Take(r0, before, DrainOne);
      trace := before + [DrainOne];
    }

    method LateCallers(ghost r0: State, ghost before: seq<Action>, ghost merge0: Deltas, ghost ch0: seq<string>,
            ghost arrived: seq<string>)
      returns (ghost trace: seq<Action>, ghost all: seq<string>)
      requires Abs() == Play(r0, before) && phase == Draining && Gathered(merge0, ch0 + arrived, merge, ch)
      modifies this
      ensures Abs() == Play(r0, trace) && phase == Draining && Gathered(merge0, ch0 + all, merge, ch)
    {
      ghost var more;
      trace, more := Callers(r0, before);
      GatheredMore(merge0, ch0, arrived, old(merge), old(ch), more);
      all := arrived + more;
    }
  }

  lemma {:induction false} PlayOne(r: State, actions: seq<Action>, a: Action)
    ensures Play(r, actions + [a]) == Next(Play(r, actions), a)
  {
    assert (actions + [a])[..|actions|] == actions;
  }

  lemma {:induction false} FinalPlay(r: State, actions: seq<Action>, day: int, applied: set<string>)
    requires Play(r, actions).phase == Drained
    ensures Play(r, actions + [FinalFlush(day, applied)]) == Flushed(Play(r, actions), day, applied).(phase := Stopped)
    ensures Flushed(Play(r, actions), day, applied).merge == Play(r, actions).merge
  {
    PlayOne(r, actions, FinalFlush(day, applied));
  }

  /** The day numbers of the last `days` days, filled from the back. */
  method DayList(now: int, days: int) returns (out: seq<int>)
    ensures out == Window(now, days) && |out| == (if days <= 0 then 0 else days)
    ensures forall i :: 0 <= i < |out| ==> out[i] == DayOf(now) - (|out| - 1 - i)
  {
    if days <= 0 {
      return [];
    }
    var list := new int[days];
    var base := DayOf(now);
    for i := 0 to days
      invariant forall k :: days - i <= k < days ==> list[k] == base - days + 1 + k
    {
      list[days - 1 - i] := base - i;
    }
    out := list[..];
  }

  // ---- conservation ----

  /** What the backend held at first, and what has happened: hits accepted, calls made, and drops reported. */
  datatype Ledger = Ledger(base: Data, accepted: multiset<string>, calls: nat, reported: nat)

  function Booked(r: State, l: Ledger, a: Action): Ledger {
    match a
    case Record(code) =>
      l.(calls := l.calls + 1, accepted := if |r.ch| < r.capacity then l.accepted + multiset{code} else l.accepted)
    case Ticker(_, _) =>
      if r.phase == Running && |r.merge| > 0 then l.(reported := l.reported + r.drops) else l
    case FinalFlush(_, _) =>
      if r.phase == Drained && |r.merge| > 0 then l.(reported := l.reported + r.drops) else l
    case _ => l
  }

  function Books(r: State, actions: seq<Action>): Ledger {
    if actions == [] then Ledger(r.data, multiset{}, 0, 0)
    else
      var front := actions[..|actions| - 1];
      Booked(Play(r, front), Books(r, front), actions[|actions| - 1])
  }

  ghost function SumOver(data: Data, days: set<int>, code: string): int
    decreases |days|
  {
    if days == {} then 0
    else
      assert exists d :: d in days by { var d := Member(days); }
      var d :| d in days;
      Count(data, d, code) + SumOver(data, days - {d}, code)
  }

  /** The counts of a code in the backend, over all days. */
  ghost function Total(data: Data, code: string): int {
    SumOver(data, data.Keys, code)
  }

  /** After the final flush the merge map still holds what was sent; it is not pending. */
  function Pending(r: State, code: string): int {
    if r.phase == Stopped then 0 else Val(r.merge, code)
  }

  ghost predicate CodeConserved(r: State, l: Ledger, code: string) {
    Total(l.base, code) + l.accepted[code] == multiset(r.ch)[code] + Pending(r, code) + Total(r.data, code)
  }

  ghost predicate Conserved(r: State, l: Ledger) {
    && (forall code :: CodeConserved(r, l, code))
    && l.calls == |l.accepted| + l.reported + r.drops
    && (forall code :: code in r.merge ==> r.merge[code] > 0)
  }

  /** The step is not a flush of which something does not reach the backend. */
  predicate FlushSucceeds(r: State, a: Action) {
    match a
    case Ticker(_, applied) => r.phase == Running ==> r.merge.Keys <= applied
    case FinalFlush(_, applied) => r.phase == Drained ==> r.merge.Keys <= applied
    case _ => true
  }
}
