/** No accepted hit is lost or counted twice. */
module HitConservation {
  import opened Collections
  import opened Stats
  import opened Recorder

  lemma {:induction false} SumTakesOut(data: Data, days: set<int>, code: string, d: int)
    requires d in days
    ensures SumOver(data, days, code) == Count(data, d, code) + SumOver(data, days - {d}, code)
    decreases |days|
  {
    assert exists e :: e in days by { var e := Member(days); }
    var e :| e in days && SumOver(data, days, code) == Count(data, e, code) + SumOver(data, days - {e}, code);
    if e != d {
      SumTakesOut(data, days - {e}, code, d);
      SumTakesOut(data, days - {d}, code, e);
      assert days - {e} - {d} == days - {d} - {e};
    }
  }

  lemma {:induction false} SumSame(a: Data, b: Data, days: set<int>, code: string)
    requires forall d :: d in days ==> Count(a, d, code) == Count(b, d, code)
    ensures SumOver(a, days, code) == SumOver(b, days, code)
    decreases |days|
  {
    if days != {} {
      var d := Member(days);
      SumTakesOut(a, days, code, d);
      SumTakesOut(b, days, code, d);
      SumSame(a, b, days - {d}, code);
    }
  }

  /** Merging a batch into one day raises the total of each code by its delta. */
  lemma {:induction false} MergedTotal(data: Data, day: int, deltas: Deltas, code: string)
    ensures Total(Merged(data, day, deltas), code) == Total(data, code) + Val(deltas, code)
  {
    var after := Merged(data, day, deltas);
    if |deltas| == 0 {
      assert deltas.Keys == {};
    } else {
      MergedCount(data, day, deltas, day, code);
      SumTakesOut(after, after.Keys, code, day);
      OtherDaysSum(data, day, deltas, code);
      if day in data {
        SumTakesOut(data, data.Keys, code, day);
      } else {
        assert data.Keys - {day} == data.Keys;
      }
    }
  }

  lemma {:induction false} OtherDaysSum(data: Data, day: int, deltas: Deltas, code: string)
    requires |deltas| != 0
    ensures SumOver(Merged(data, day, deltas), Merged(data, day, deltas).Keys - {day}, code)
      == SumOver(data, data.Keys - {day}, code)
  {
    assert Merged(data, day, deltas).Keys - {day} == data.Keys - {day};
    forall d | d in data.Keys - {day} ensures Count(Merged(data, day, deltas), d, code) == Count(data, d, code) {
      MergedCount(data, day, deltas, d, code);
    }
    SumSame(Merged(data, day, deltas), data, data.Keys - {day}, code);
  }

  lemma {:induction false} ReceivedConserves(r: State, l: Ledger)
    requires Conserved(r, l) && r.ch != [] && r.phase != Stopped
    ensures Conserved(Received(r), l)
  {
    var t := Received(r);
    assert r.ch == [r.ch[0]] + t.ch;
    forall code ensures CodeConserved(t, l, code) {
      assert CodeConserved(r, l, code);
    }
  }

  lemma {:induction false} ReachingValue(merge: Deltas, applied: set<string>, code: string)
    ensures Val(Reaching(merge, applied), code) == if code in applied then Val(merge, code) else 0
  {
  }

  /** A flush moves to the backend what reaches it, and loses the rest. */
  lemma {:induction false} FlushConservesIff(r: State, l: Ledger, day: int, applied: set<string>, t: State)
    requires Conserved(r, l) && r.phase != Stopped && |r.merge| > 0
    requires t == Flushed(r, day, applied).(merge := map[]) || t == Flushed(r, day, applied).(phase := Stopped)
    ensures Conserved(t, l.(reported := l.reported + r.drops)) <==> r.merge.Keys <= applied
  {
    var after := l.(reported := l.reported + r.drops);
    forall code ensures CodeConserved(t, after, code) <==> code in applied || code !in r.merge {
      assert CodeConserved(r, l, code);
      MergedTotal(r.data, day, Reaching(r.merge, applied), code);
      ReachingValue(r.merge, applied, code);
    }
    if !(r.merge.Keys <= applied) {
      var code :| code in r.merge.Keys && code !in applied;
      assert !CodeConserved(t, after, code);
    }
  }

  lemma {:induction false} RecordConserves(r: State, l: Ledger, code: string)
    requires Conserved(r, l)
    ensures Conserved(Next(r, Record(code)), Booked(r, l, Record(code)))
  {
    var t, after := Next(r, Record(code)), Booked(r, l, Record(code));
    forall c ensures CodeConserved(t, after, c) {
      assert CodeConserved(r, l, c);
    }
  }

  lemma {:induction false} PhaseConserves(r: State, l: Ledger, phase: Phase)
    requires Conserved(r, l) && r.phase != Stopped && phase != Stopped
    ensures Conserved(r.(phase := phase), l)
  {
    forall c ensures CodeConserved(r.(phase := phase), l, c) {
      assert CodeConserved(r, l, c);
    }
  }

  lemma {:induction false} NothingToSend(merge: Deltas, applied: set<string>)
    requires |merge| == 0
    ensures merge.Keys <= applied
  {
    assert merge.Keys == {};
  }

  lemma {:induction false} EmptyFinalFlush(r: State, l: Ledger, day: int, applied: set<string>)
    requires Conserved(r, l) && |r.merge| == 0 && r.phase == Drained
    ensures var a := FinalFlush(day, applied); Conserved(Next(r, a), Booked(r, l, a)) && FlushSucceeds(r, a)
  {
    NothingToSend(r.merge, applied);
    assert r.merge.Keys == {};
    forall c ensures CodeConserved(r.(phase := Stopped), l, c) {
      assert CodeConserved(r, l, c);
    }
  }

  lemma {:induction false} FullTickerConservesIff(r: State, l: Ledger, day: int, applied: set<string>)
    requires Conserved(r, l) && r.phase == Running && |r.merge| > 0
    ensures var a := Ticker(day, applied); Conserved(Next(r, a), Booked(r, l, a)) <==> r.merge.Keys <= applied
  {
    FlushConservesIff(r, l, day, applied, Next(r, Ticker(day, applied)));
  }

  lemma {:induction false} TickerConservesIff(r: State, l: Ledger, day: int, applied: set<string>)
    requires Conserved(r, l)
    ensures var a := Ticker(day, applied); Conserved(Next(r, a), Booked(r, l, a)) <==> FlushSucceeds(r, a)
  {
    if r.phase == Running {
      if |r.merge| > 0 { FullTickerConservesIff(r, l, day, applied); } else { NothingToSend(r.merge, applied); }
    }
  }

  lemma {:induction false} FinalConservesIff(r: State, l: Ledger, day: int, applied: set<string>)
    requires Conserved(r, l)
    ensures var a := FinalFlush(day, applied); Conserved(Next(r, a), Booked(r, l, a)) <==> FlushSucceeds(r, a)
  {
    if r.phase == Drained {
      if |r.merge| > 0 {
        FlushConservesIff(r, l, day, applied, Next(r, FinalFlush(day, applied)));
      } else {
        EmptyFinalFlush(r, l, day, applied);
      }
    }
  }

  lemma {:induction false} DrainConserves(r: State, l: Ledger)
    requires Conserved(r, l)
    ensures Conserved(Next(r, DrainOne), l)
  {
    if r.phase == Draining {
      if r.ch == [] { PhaseConserves(r, l, Drained); } else { ReceivedConserves(r, l); }
    }
  }

  /** Every step of every goroutine conserves hits, except exactly a flush that does not reach the backend whole. */
  lemma {:induction false} StepConservesIff(r: State, l: Ledger, a: Action)
    requires Conserved(r, l)
    ensures Conserved(Next(r, a), Booked(r, l, a)) <==> FlushSucceeds(r, a)
  {
    match a
    case Record(code) => RecordConserves(r, l, code);
    case Receive => if r.phase == Running && r.ch != [] { ReceivedConserves(r, l); }
    case Ticker(day, applied) => TickerConservesIff(r, l, day, applied);
    case Stop => if r.phase == Running { PhaseConserves(r, l, Draining); }
    case DrainOne => DrainConserves(r, l);
    case FinalFlush(day, applied) => FinalConservesIff(r, l, day, applied);
  }

  ghost predicate NoFlushFails(r: State, actions: seq<Action>) {
    actions != [] ==>
      var front := actions[..|actions| - 1];
      NoFlushFails(r, front) && FlushSucceeds(Play(r, front), actions[|actions| - 1])
  }

  /** Over every interleaving, while no flush fails, hits and calls are conserved. */
  lemma {:induction false} ConservedThroughout(capacity: nat, data: Data, actions: seq<Action>)
    requires NoFlushFails(Fresh(capacity, data), actions)
    ensures Conserved(Play(Fresh(capacity, data), actions), Books(Fresh(capacity, data), actions))
  {
    var r := Fresh(capacity, data);
    if actions == [] {
      forall code ensures CodeConserved(r, Ledger(data, multiset{}, 0, 0), code) {}
    } else {
      var front := actions[..|actions| - 1];
      ConservedThroughout(capacity, data, front);
      StepConservesIff(Play(r, front), Books(r, front), actions[|actions| - 1]);
    }
  }

  lemma {:induction false} BaseStays(r: State, actions: seq<Action>)
    ensures Books(r, actions).base == r.data
  {
    if actions != [] { BaseStays(r, actions[..|actions| - 1]); }
  }

  /** When run has returned, every accepted hit is in the backend once, or came too late and is in the channel. */
  lemma {:induction false} NothingLostAtReturn(capacity: nat, data: Data, actions: seq<Action>, code: string)
    requires NoFlushFails(Fresh(capacity, data), actions) && Play(Fresh(capacity, data), actions).phase == Stopped
    ensures var r, l := Play(Fresh(capacity, data), actions), Books(Fresh(capacity, data), actions);
      && Total(data, code) + l.accepted[code] == Total(r.data, code) + multiset(r.ch)[code]
      && l.calls == |l.accepted| + l.reported + r.drops
  {
    ConservedThroughout(capacity, data, actions);
    BaseStays(Fresh(capacity, data), actions);
    assert CodeConserved(Play(Fresh(capacity, data), actions), Books(Fresh(capacity, data), actions), code);
  }

  // ---- what one flush does ----

  lemma {:induction false} FlushedByDay(r: State, day: int, applied: set<string>, d: int, code: string)
    ensures Count(Flushed(r, day, applied).data, d, code)
      == Count(r.data, d, code) + if d == day && code in applied then Val(r.merge, code) else 0
  {
    MergedCount(r.data, day, Reaching(r.merge, applied), d, code);
    ReachingValue(r.merge, applied, code);
    if |r.merge| == 0 { assert r.merge.Keys == {}; }
  }

  /** The ticker sends each merged count to its code on that day and to nothing else, and the merging starts again. */
  lemma {:induction false} TickerSends(r: State, day: int, applied: set<string>, d: int, code: string)
    requires r.phase == Running
    ensures var t := Next(r, Ticker(day, applied));
      && t.merge == map[] && t.ch == r.ch && t.phase == Running
      && t.drops == (if |r.merge| == 0 then r.drops else 0)
      && Count(t.data, d, code)
           == Count(r.data, d, code) + if d == day && code in applied then Val(r.merge, code) else 0
  {
    FlushedByDay(r, day, applied, d, code);
    if |r.merge| == 0 { assert r.merge.Keys == {}; }
  }

  /** The final flush sends the same, and is the last step. */
  lemma {:induction false} FinalFlushSends(r: State, day: int, applied: set<string>, d: int, code: string)
    requires r.phase == Drained
    ensures var t := Next(r, FinalFlush(day, applied));
      && t.merge == r.merge && t.ch == r.ch && t.phase == Stopped
      && t.drops == (if |r.merge| == 0 then r.drops else 0)
      && Count(t.data, d, code)
           == Count(r.data, d, code) + if d == day && code in applied then Val(r.merge, code) else 0
  {
    FlushedByDay(r, day, applied, d, code);
  }

  /** The channel never holds more than its capacity, so a hit is dropped exactly when it is full. */
  lemma {:induction false} ChannelIsBounded(capacity: nat, data: Data, actions: seq<Action>, code: string)
    ensures var r := Play(Fresh(capacity, data), actions);
      && r.capacity == capacity && |r.ch| <= capacity
      && (Next(r, Record(code)).ch == r.ch + [code] <==> |r.ch| < capacity)
      && (Next(r, Record(code)).drops > r.drops <==> |r.ch| == capacity)
  {
    if actions != [] { ChannelIsBounded(capacity, data, actions[..|actions| - 1], code); }
    var r := Play(Fresh(capacity, data), actions);
    assert |r.ch + [code]| == |r.ch| + 1;
  }

  /** run takes the oldest buffered code and counts it once. */
  lemma {:induction false} ReceiveTakesFirst(r: State, first: string, rest: seq<string>, code: string)
    requires r.phase == Running && r.ch == [first] + rest
    ensures var t := Next(r, Receive);
      && t == r.(ch := rest, merge := t.merge)
      && Val(t.merge, code) == Val(r.merge, code) + if code == first then 1 else 0
  {
    assert r.ch[1..] == rest;
  }
}
