/** With the lease lock, servers generate every batch once. */
module DistributedGeneration {
  import opened Collections
  import opened Generator
  import opened Links
  import opened RedisLock

  /** Steps of a server outside its section, other than taking the lock or deleting a stale key. */
  lemma {:induction false} OutsideKeeps(par: Params, p: State, s: int, pc: Pc)
    requires Inv(par, p) && !InSection(At(p, s)) && !InSection(pc)
    ensures Inv(par, Goto(p, s, pc))
  {
    var q := Goto(p, s, pc);
    forall t ensures (InSection(At(q, t)) ==> HeldBy(q, t)) && PcOk(par, q, At(q, t)) {
      assert PcOk(par, p, At(p, t)) && (InSection(At(p, t)) ==> HeldBy(p, t));
    }
  }

  lemma {:induction false} SetNXKeeps(par: Params, p: State, s: int)
    requires Inv(par, p) && At(p, s).Begun? && p.key.None?
    ensures Inv(par, Next(par, p, SetNX(s)))
  {
    var q := Next(par, p, SetNX(s));
    forall t ensures (InSection(At(q, t)) ==> HeldBy(q, t)) && PcOk(par, q, At(q, t)) {
      assert PcOk(par, p, At(p, t)) && (InSection(At(p, t)) ==> HeldBy(p, t));
    }
  }

  /** Removing the key keeps the invariant exactly when its owner has left its section. */
  lemma {:induction false} DropKeyIff(par: Params, p: State, q: State)
    requires Inv(par, p) && p.key.Some? && q == p.(key := None, now := q.now)
    ensures Inv(par, q) <==> !InSection(At(p, p.key.value.owner))
  {
    var owner := p.key.value.owner;
    forall t ensures At(q, t) == At(p, t) && PcOk(par, q, At(q, t)) && (InSection(At(q, t)) ==> t == owner) {
      assert PcOk(par, p, At(p, t)) && (InSection(At(p, t)) ==> HeldBy(p, t));
    }
    if InSection(At(p, owner)) {
      assert InSection(At(q, owner)) && !HeldBy(q, owner);
    }
  }

  lemma {:induction false} TickIff(par: Params, p: State, t: int)
    requires Inv(par, p)
    ensures Inv(par, Next(par, p, Tick(t))) <==> Guard(p, Tick(t))
  {
    var q := Next(par, p, Tick(t));
    if t >= p.now {
      if p.key.Some? && t >= p.key.value.deadline {
        DropKeyIff(par, p, q);
      } else {
        forall s ensures (InSection(At(q, s)) ==> HeldBy(q, s)) && PcOk(par, q, At(q, s)) {
          assert PcOk(par, p, At(p, s)) && (InSection(At(p, s)) ==> HeldBy(p, s));
        }
      }
    }
  }

  lemma {:induction false} DelStaleIff(par: Params, p: State, s: int)
    requires Inv(par, p) && At(p, s).Stealing?
    ensures Inv(par, Next(par, p, DelStale(s))) <==> Guard(p, DelStale(s))
  {
    var moved := Goto(p, s, Deadline(par, p));
    OutsideKeeps(par, p, s, Deadline(par, p));
    if p.key.Some? {
      DropKeyIff(par, moved, Next(par, p, DelStale(s)));
    }
  }

  /** The steps of the one server in its section. */
  lemma {:induction false} SectionKeeps(par: Params, p: State, s: int, q: State)
    requires Inv(par, p) && InSection(At(p, s)) && par.B >= 1
    requires q == Next(par, p, GetStartIndex(s)) || q == Next(par, p, AddCode(s))
      || q == Next(par, p, SaveStartIndex(s))
    ensures Inv(par, q)
  {
    assert HeldBy(p, s) && PcOk(par, p, At(p, s));
    forall t ensures (InSection(At(q, t)) ==> HeldBy(q, t)) && PcOk(par, q, At(q, t)) {
      assert PcOk(par, p, At(p, t)) && (InSection(At(p, t)) ==> HeldBy(p, t));
    }
    LogGrows(par, p, s, q);
  }

  lemma {:induction false} LogGrows(par: Params, p: State, s: int, q: State)
    requires Inv(par, p) && InSection(At(p, s)) && HeldBy(p, s) && PcOk(par, p, At(p, s)) && par.B >= 1
    requires q == Next(par, p, GetStartIndex(s)) || q == Next(par, p, AddCode(s))
      || q == Next(par, p, SaveStartIndex(s))
    ensures q.log == AllCodes(par.L, par.B, par.step, q.stored) + Unrecorded(par, q)
  {
    if At(p, s).Adding? && q == Next(par, p, AddCode(s)) {
      AddCodeLogs(par, p, s);
    } else if At(p, s).Saving? && q == Next(par, p, SaveStartIndex(s)) {
      SaveLogs(par, p, s);
    }
  }

  lemma {:induction false} AddCodeLogs(par: Params, p: State, s: int)
    requires At(p, s).Adding? && HeldBy(p, s) && PcOk(par, p, At(p, s)) && par.B >= 1
    requires p.log == AllCodes(par.L, par.B, par.step, p.stored) + Unrecorded(par, p)
    ensures var q := Next(par, p, AddCode(s));
      q.log == AllCodes(par.L, par.B, par.step, q.stored) + Unrecorded(par, q)
  {
    var index, i, q := At(p, s).index, At(p, s).i, Next(par, p, AddCode(s));
    var codes, code := BatchCodes(par.L, par.step, index, i), BatchCode(par.L, par.step, index, i);
    assert Unrecorded(par, q) == BatchCodes(par.L, par.step, index, i + 1) == codes + [code];
    assert q.log == AllCodes(par.L, par.B, par.step, p.stored) + (codes + [code]);
  }

  lemma {:induction false} SaveLogs(par: Params, p: State, s: int)
    requires At(p, s).Saving? && HeldBy(p, s) && PcOk(par, p, At(p, s)) && 0 <= p.stored
    requires p.log == AllCodes(par.L, par.B, par.step, p.stored) + Unrecorded(par, p)
    ensures var q := Next(par, p, SaveStartIndex(s));
      q.log == AllCodes(par.L, par.B, par.step, q.stored) + Unrecorded(par, q)
  {
    AllCodesNext(par.L, par.B, par.step, p.stored);
    assert Unrecorded(par, Next(par, p, SaveStartIndex(s))) == [];
  }

  lemma {:induction false} UnlockKeeps(par: Params, p: State, s: int)
    requires Inv(par, p) && At(p, s).Unlocking?
    ensures Inv(par, Next(par, p, Unlock(s)))
  {
    var q := Next(par, p, Unlock(s));
    assert InSection(At(p, s)) && HeldBy(p, s);
    forall t ensures (InSection(At(q, t)) ==> HeldBy(q, t)) && PcOk(par, q, At(q, t)) {
      assert PcOk(par, p, At(p, t)) && (InSection(At(p, t)) ==> HeldBy(p, t));
    }
  }

  /** Every command of every server keeps the invariant, except exactly the two guarded events. */
  lemma {:induction false} StepKeepsIff(par: Params, p: State, a: Action)
    requires Inv(par, p) && par.B >= 1
    ensures Inv(par, Next(par, p, a)) <==> Guard(p, a)
  {
    match a
    case Tick(t) => TickIff(par, p, t);
    case Begin(s) => if At(p, s).Idle? { OutsideKeeps(par, p, s, Deadline(par, p)); }
    case SetNX(s) =>
      if At(p, s).Begun? {
        if p.key.Some? { OutsideKeeps(par, p, s, Refused); } else { SetNXKeeps(par, p, s); }
      }
    case Get(s) =>
      if At(p, s).Refused? {
        OutsideKeeps(par, p, s, if p.key.None? then Deadline(par, p) else Read(p.key.value));
      }
    case Compare(s) =>
      if At(p, s).Read? {
        OutsideKeeps(par, p, s, if Unix(p.now) > At(p, s).seen.value then Stealing(At(p, s).seen) else Idle);
      }
    case DelStale(s) => if At(p, s).Stealing? { DelStaleIff(par, p, s); }
    case GetStartIndex(s) => if At(p, s).Holding? { SectionKeeps(par, p, s, Next(par, p, a)); }
    case AddCode(s) => if At(p, s).Adding? { SectionKeeps(par, p, s, Next(par, p, a)); }
    case SaveStartIndex(s) => if At(p, s).Saving? { SectionKeeps(par, p, s, Next(par, p, a)); }
    case Unlock(s) => if At(p, s).Unlocking? { UnlockKeeps(par, p, s); }
  }

  ghost predicate Guarded(par: Params, now: int, actions: seq<Action>) {
    actions != [] ==>
      var front := actions[..|actions| - 1];
      Guarded(par, now, front) && Guard(Play(par, now, front), actions[|actions| - 1])
  }

  lemma {:induction false} InvThroughout(par: Params, now: int, actions: seq<Action>)
    requires par.B >= 1 && Guarded(par, now, actions)
    ensures Inv(par, Play(par, now, actions))
  {
    if actions != [] {
      var front := actions[..|actions| - 1];
      InvThroughout(par, now, front);
      StepKeepsIff(par, Play(par, now, front), actions[|actions| - 1]);
    }
  }

  /** All batches recorded or begun are within the capacity. */
  predicate BelowCapacity(par: Params, p: State) {
    p.stored < Capacity(par.B, par.step) || (p.stored == Capacity(par.B, par.step) && Unrecorded(par, p) == [])
  }

  /**
    In every guarded run at most one server is in its section; while no batch was started past the
    capacity no code was ever added twice; and when nobody is in a section, the stored index counts
    exactly the batches added.
   */
  lemma {:induction false} GenerationIsExclusive(par: Params, now: int, actions: seq<Action>)
    requires Fits(par.L, par.B, par.step) && Guarded(par, now, actions)
    ensures var p := Play(par, now, actions);
      && (forall s, t :: InSection(At(p, s)) && InSection(At(p, t)) ==> s == t)
      && (BelowCapacity(par, p) ==> Distinct(p.log))
      && ((forall s :: !InSection(At(p, s))) ==> p.log == AllCodes(par.L, par.B, par.step, p.stored))
  {
    var p := Play(par, now, actions);
    InvThroughout(par, now, actions);
    if BelowCapacity(par, p) {
      LogDistinct(par, p);
    }
    if forall s :: !InSection(At(p, s)) {
      assert Unrecorded(par, p) == [];
    }
  }

  lemma {:induction false} LogDistinct(par: Params, p: State)
    requires Fits(par.L, par.B, par.step) && Inv(par, p) && BelowCapacity(par, p)
    ensures Distinct(p.log)
  {
    if p.stored == Capacity(par.B, par.step) {
      AllCodesDistinct(par.L, par.B, par.step, p.stored);
    } else {
      PartialDistinct(par, p);
    }
  }

  lemma {:induction false} PartialDistinct(par: Params, p: State)
    requires Fits(par.L, par.B, par.step) && Inv(par, p) && p.stored < Capacity(par.B, par.step)
    ensures Distinct(p.log)
  {
    var all, batch := AllCodes(par.L, par.B, par.step, p.stored), BatchCodes(par.L, par.step, p.stored, par.B);
    AllCodesNext(par.L, par.B, par.step, p.stored);
    AllCodesDistinct(par.L, par.B, par.step, p.stored + 1);
    var extra := Unrecorded(par, p);
    assert extra <= batch by {
      if p.key.Some? {
        var pc := At(p, p.key.value.owner);
        assert PcOk(par, p, pc);
        if pc.Adding? { BatchPrefix(par.L, par.step, p.stored, pc.i, par.B); }
      }
    }
    assert p.log <= all + batch;
    DistinctPrefix(p.log, all + batch);
  }

  lemma {:induction false} BatchPrefix(L: nat, step: int, k: int, i: nat, n: nat)
    requires i <= n
    ensures BatchCodes(L, step, k, i) <= BatchCodes(L, step, k, n)
  {
    if i < n { BatchPrefix(L, step, k, i, n - 1); }
  }

  lemma {:induction false} DistinctPrefix<T>(a: seq<T>, b: seq<T>)
    requires a <= b && Distinct(b)
    ensures Distinct(a)
  {
    assert forall i :: 0 <= i < |a| ==> a[i] == b[i];
  }

  // ---- when the guards hold, and what happens otherwise ----

  /** A server in its section is within its lease, by Redis's deadline and by the value in the key. */
  predicate WithinLease(p: State) {
    p.key.Some? && InSection(At(p, p.key.value.owner)) ==>
      p.now < p.key.value.deadline && Unix(p.now) <= p.key.value.value
  }

  /** A stale key is deleted only if it is still the key that was read, and that key had expired. */
  predicate DeletesWhatItRead(p: State, a: Action) {
    match a
    case DelStale(s) => At(p, s).Stealing? && p.key.Some? ==> p.key.value == At(p, s).seen
    case _ => true
  }

  ghost predicate SawExpired(p: State) {
    forall s :: At(p, s).Stealing? ==> Unix(p.now) > At(p, s).seen.value
  }

  lemma {:induction false} SawExpiredKept(par: Params, p: State, a: Action)
    requires SawExpired(p)
    ensures SawExpired(Next(par, p, a))
  {
    var q := Next(par, p, a);
    forall s | At(q, s).Stealing? ensures Unix(q.now) > At(q, s).seen.value {
      if At(p, s).Stealing? {
        assert Unix(q.now) >= Unix(p.now);
      }
    }
  }

  /**
    A server in its section unlocks before its key runs out and before the expiry stored in the key;
    and SetNX is sent before the expiry it stores.
   */
  predicate UnlocksInTime(p: State, a: Action) {
    match a
    case Tick(t) =>
      p.key.Some? && InSection(At(p, p.key.value.owner)) && t >= p.now ==>
        t < p.key.value.deadline && Unix(t) <= p.key.value.value
    case SetNX(s) => At(p, s).Begun? && p.key.None? ==> Unix(p.now) <= At(p, s).value
    case _ => true
  }

  /** Every server keeps to its lease and deletes no stale key but the one it read. */
  ghost predicate Disciplined(par: Params, now: int, actions: seq<Action>) {
    actions != [] ==>
      var front, a := actions[..|actions| - 1], actions[|actions| - 1];
      Disciplined(par, now, front)
      && UnlocksInTime(Play(par, now, front), a) && DeletesWhatItRead(Play(par, now, front), a)
  }

  lemma {:induction false} LeaseKept(par: Params, p: State, a: Action)
    requires Inv(par, p) && WithinLease(p) && UnlocksInTime(p, a) && par.lease > 0
    ensures WithinLease(Next(par, p, a))
  {
    var q := Next(par, p, a);
    if q.key.Some? && q.key != p.key {
      assert a.SetNX?;
    }
  }

  /** A disciplined run meets every guard: no SetNX is late, holders unlock in time, and no other key is deleted. */
  lemma {:induction false} DisciplineIsEnough(par: Params, now: int, actions: seq<Action>)
    requires par.B >= 1 && par.lease > 0 && Disciplined(par, now, actions)
    ensures Guarded(par, now, actions)
    ensures WithinLease(Play(par, now, actions)) && SawExpired(Play(par, now, actions))
  {
    if actions != [] {
      var front, a := actions[..|actions| - 1], actions[|actions| - 1];
      var p := Play(par, now, front);
      DisciplineIsEnough(par, now, front);
      InvThroughout(par, now, front);
      LeaseKept(par, p, a);
      SawExpiredKept(par, p, a);
      if a.DelStale? && At(p, a.s).Stealing? && p.key.Some? {
        assert Unix(p.now) > At(p, a.s).seen.value;
      }
    }
  }

  /** The thief's commands up to the decision about the key it reads. */
  function Looked(par: Params, p: State, thief: int): State {
    Next(par, Next(par, Next(par, Next(par, p, Begin(thief)), SetNX(thief)), Get(thief)), Compare(thief))
  }

  /**
    A server within its lease can be robbed exactly when the expiry stored in its key has passed:
    another server that reads the key now takes it for stale and is about to delete it.
   */
  lemma {:induction false} RobbedIff(par: Params, p: State, holder: int, thief: int)
    requires Inv(par, p) && InSection(At(p, holder)) && At(p, thief).Idle? && p.now < p.key.value.deadline
    ensures var q := Looked(par, p, thief);
      && At(q, holder) == At(p, holder) && q.key == p.key && DeletesWhatItRead(q, DelStale(thief))
      && (Guard(q, DelStale(thief)) <==> Unix(p.now) <= p.key.value.value)
  {
    assert HeldBy(p, holder);
    var p1 := Next(par, p, Begin(thief));
    var p2 := Next(par, p1, SetNX(thief));
    var p3 := Next(par, p2, Get(thief));
    assert At(p3, thief) == Read(p.key.value);
  }

  lemma {:induction false} LateKeyIsRobbed(par: Params, p: State, holder: int, thief: int, began: int)
    requires Inv(par, p) && par.B >= 1 && par.lease > 0 && p.key.None? && holder != thief
    requires At(p, holder) == Begun(Unix(began + par.lease)) && began + SECOND < p.now && At(p, thief).Idle?
    ensures var t := if p.now > began + par.lease + SECOND then p.now else began + par.lease + SECOND;
      var taken := Next(par, Next(par, p, SetNX(holder)), Tick(t));
      var q := Looked(par, taken, thief);
      && Inv(par, taken) && At(q, holder).Holding? && At(q, thief).Stealing?
      && q.key.Some? && q.now == t < q.key.value.deadline == p.now + par.lease
      && DeletesWhatItRead(q, DelStale(thief)) && !Guard(q, DelStale(thief))
  {
    var t := if p.now > began + par.lease + SECOND then p.now else began + par.lease + SECOND;
    var held := Next(par, p, SetNX(holder));
    var taken := Next(par, held, Tick(t));
    StepKeepsIff(par, p, SetNX(holder));
    StepKeepsIff(par, held, Tick(t));
    NextSecond(began + par.lease, t);
    RobbedIff(par, taken, holder, thief);
  }

  lemma {:induction false} NextSecond(a: int, b: int)
    requires a + SECOND <= b
    ensures Unix(a) < Unix(b)
  {
  }

  /**
    Without the second guard two servers generate the same batch: a server about to delete a key it
    took for stale deletes the key of a server that is adding a batch, takes the lock, reads the same
    index, and the first code of the batch is added twice.
   */
  lemma {:induction false} StolenLockRepeatsBatch(par: Params, p: State, holder: int, thief: int)
    requires Inv(par, p) && At(p, holder).Adding? && At(p, thief).Stealing?
    ensures var q := Next(par, Next(par, Next(par, p, DelStale(thief)), SetNX(thief)), GetStartIndex(thief));
      && At(q, holder) == At(p, holder) && At(q, thief) == Adding(At(p, holder).index, 0)
      && !Distinct(Next(par, Next(par, q, AddCode(holder)), AddCode(thief)).log)
  {
    assert PcOk(par, p, At(p, holder)) && HeldBy(p, holder);
    var index, i := At(p, holder).index, At(p, holder).i;
    var q := Next(par, Next(par, Next(par, p, DelStale(thief)), SetNX(thief)), GetStartIndex(thief));
    var log := Next(par, q, AddCode(holder)).log;
    var first := BatchCode(par.L, par.step, index, 0);
    assert log == p.log + [BatchCode(par.L, par.step, index, i)];
    AddedAlready(par, AllCodes(par.L, par.B, par.step, p.stored), index, i);
    LastRepeats(log, first);
  }

  /** A batch of which some code has been added has its first code added. */
  lemma {:induction false} AddedAlready(par: Params, before: seq<string>, index: int, i: nat)
    ensures BatchCode(par.L, par.step, index, 0) in
      before + BatchCodes(par.L, par.step, index, i) + [BatchCode(par.L, par.step, index, i)]
  {
    if i > 0 {
      BatchCodesAt(par.L, par.step, index, i);
      assert BatchCodes(par.L, par.step, index, i)[0] in BatchCodes(par.L, par.step, index, i);
    }
  }

  lemma {:induction false} LastRepeats(log: seq<string>, code: string)
    requires code in log
    ensures !Distinct(log + [code])
  {
    var k :| 0 <= k < |log| && log[k] == code;
    assert (log + [code])[k] == (log + [code])[|log|];
  }

  /** Both then save the same next index, so a batch added twice is counted once. */
  lemma {:induction false} StolenBatchCountsOnce(par: Params, p: State, one: int, two: int)
    requires At(p, one).Saving? && At(p, two) == At(p, one) && one != two
    ensures Next(par, Next(par, p, SaveStartIndex(one)), SaveStartIndex(two)).stored == At(p, one).index + 1
  {
    assert At(Next(par, p, SaveStartIndex(one)), two) == At(p, two);
  }

  /** Del takes whatever key there is: a server that was robbed unlocks the thief, who is still in its section. */
  lemma {:induction false} RobbedUnlocksThief(par: Params, p: State, robbed: int, thief: int)
    requires At(p, robbed).Unlocking? && robbed != thief && HeldBy(p, thief) && InSection(At(p, thief))
    ensures var q := Next(par, p, Unlock(robbed));
      q.key == None && InSection(At(q, thief)) && !Exclusive(q)
  {
    var q := Next(par, p, Unlock(robbed));
    assert At(q, thief) == At(p, thief) && !HeldBy(q, thief);
  }
}
