/** The lease lock measured by the clock alone: when each server read it, and when it set the key. */
module LockTime {
  import opened Collections
  import opened Generator
  import opened Links
  import opened RedisLock
  import opened DistributedGeneration

  /** When the server last read the clock to compute an expiry. */
  ghost function Began(par: Params, now: int, actions: seq<Action>, s: int): int {
    if actions == [] then now
    else
      var front := actions[..|actions| - 1];
      var p, q := Play(par, now, front), Play(par, now, actions);
      if !At(p, s).Begun? && At(q, s).Begun? then p.now else Began(par, now, front, s)
  }

  /** When the SetNX was sent by which the server last took the lock. */
  ghost function Sent(par: Params, now: int, actions: seq<Action>, s: int): int {
    if actions == [] then now
    else
      var front := actions[..|actions| - 1];
      var p, q := Play(par, now, front), Play(par, now, actions);
      if !InSection(At(p, s)) && InSection(At(q, s)) then p.now else Sent(par, now, front, s)
  }

  /** What a server about to lock will store follows from its clock reading. */
  ghost predicate BegunDated(par: Params, now: int, actions: seq<Action>) {
    var p := Play(par, now, actions);
    forall s :: At(p, s).Begun? ==> At(p, s).value == Unix(Began(par, now, actions, s) + par.lease)
  }

  /** What the key of a holder says follows from when it read the clock and when it sent SetNX. */
  ghost predicate KeyDated(par: Params, now: int, actions: seq<Action>) {
    var p := Play(par, now, actions);
    p.key.Some? && InSection(At(p, p.key.value.owner)) ==>
      var owner := p.key.value.owner;
      && p.key.value.value == Unix(Began(par, now, actions, owner) + par.lease)
      && p.key.value.deadline == Sent(par, now, actions, owner) + par.lease
  }

  lemma {:induction false} PlayNext(par: Params, now: int, actions: seq<Action>)
    requires actions != []
    ensures Play(par, now, actions) == Next(par, Play(par, now, actions[..|actions| - 1]), actions[|actions| - 1])
  {
  }

  /** A server about to lock has just read the clock, or was about to lock before. */
  lemma {:induction false} BegunNext(par: Params, p: State, a: Action, s: int)
    ensures var q := Next(par, p, a);
      At(q, s).Begun? ==> At(q, s) == At(p, s) || (!At(p, s).Begun? && At(q, s).value == Unix(p.now + par.lease))
  {
  }

  /** The key of a server in its section is the one it had, or it is set just now. */
  lemma {:induction false} KeyNext(par: Params, p: State, a: Action)
    requires Inv(par, p)
    ensures var q := Next(par, p, a);
      q.key.Some? && InSection(At(q, q.key.value.owner)) ==>
        var owner := q.key.value.owner;
        || (q.key == p.key && InSection(At(p, owner)))
        || (At(p, owner).Begun? && q.key.value.value == At(p, owner).value && q.key.value.deadline == p.now + par.lease)
  {
    var q := Next(par, p, a);
    if q.key.Some? && q.key == p.key && InSection(At(q, q.key.value.owner)) && !InSection(At(p, q.key.value.owner)) {
      assert a.SetNX?;
    }
  }

  lemma {:induction false} BegunDatedNext(par: Params, now: int, actions: seq<Action>)
    requires actions != [] && BegunDated(par, now, actions[..|actions| - 1])
    ensures BegunDated(par, now, actions)
  {
    var front, a := actions[..|actions| - 1], actions[|actions| - 1];
    var p, q := Play(par, now, front), Play(par, now, actions);
    PlayNext(par, now, actions);
    forall s | At(q, s).Begun? ensures At(q, s).value == Unix(Began(par, now, actions, s) + par.lease) {
      BegunNext(par, p, a, s);
    }
  }

  lemma {:induction false} KeyDatedNext(par: Params, now: int, actions: seq<Action>)
    requires actions != [] && Inv(par, Play(par, now, actions[..|actions| - 1]))
    requires BegunDated(par, now, actions[..|actions| - 1]) && KeyDated(par, now, actions[..|actions| - 1])
    ensures KeyDated(par, now, actions)
  {
    PlayNext(par, now, actions);
    KeyNext(par, Play(par, now, actions[..|actions| - 1]), actions[|actions| - 1]);
  }

  lemma {:induction false} DatedThroughout(par: Params, now: int, actions: seq<Action>)
    requires par.B >= 1 && Guarded(par, now, actions)
    ensures BegunDated(par, now, actions) && KeyDated(par, now, actions) && Inv(par, Play(par, now, actions))
  {
    InvThroughout(par, now, actions);
    if actions != [] {
      DatedThroughout(par, now, actions[..|actions| - 1]);
      BegunDatedNext(par, now, actions);
      KeyDatedNext(par, now, actions);
    }
  }

  // ---- the guards by the clock ----

  /** A holder's key runs out when a lease has passed since its SetNX was sent, and not before. */
  lemma {:induction false} KeyRunsOutIff(par: Params, now: int, actions: seq<Action>, holder: int, t: int)
    requires par.B >= 1 && Guarded(par, now, actions)
    requires InSection(At(Play(par, now, actions), holder)) && t >= Play(par, now, actions).now
    ensures Next(par, Play(par, now, actions), Tick(t)).key.None? <==> t >= Sent(par, now, actions, holder) + par.lease
  {
    DatedThroughout(par, now, actions);
    assert HeldBy(Play(par, now, actions), holder);
  }

  /** The guard of a clock reading: no holder's key has run out. */
  lemma {:induction false} TickGuardIff(par: Params, now: int, actions: seq<Action>, t: int)
    requires par.B >= 1 && Guarded(par, now, actions)
    ensures var p := Play(par, now, actions);
      Guard(p, Tick(t)) <==>
        forall s :: InSection(At(p, s)) && t >= p.now ==> t < Sent(par, now, actions, s) + par.lease
  {
    var p := Play(par, now, actions);
    DatedThroughout(par, now, actions);
    forall s | InSection(At(p, s)) ensures p.key.Some? && s == p.key.value.owner {
      assert HeldBy(p, s);
    }
  }

  /**
    SetNX is sent no later than the second of the expiry computed for it; a holder leaves its section
    while that second has not passed, and before a lease has passed since SetNX was sent; and a stale
    Del hits only the key that was read.
   */
  ghost predicate InTime(par: Params, now: int, actions: seq<Action>, a: Action) {
    var p := Play(par, now, actions);
    match a
    case SetNX(s) => At(p, s).Begun? && p.key.None? ==> Unix(p.now) <= Unix(Began(par, now, actions, s) + par.lease)
    case Tick(t) =>
      forall s :: InSection(At(p, s)) && t >= p.now ==>
        && Unix(t) <= Unix(Began(par, now, actions, s) + par.lease)
        && t < Sent(par, now, actions, s) + par.lease
    case DelStale(s) => At(p, s).Stealing? && p.key.Some? ==> p.key == Some(At(p, s).seen)
    case _ => true
  }

  ghost predicate KeepsTime(par: Params, now: int, actions: seq<Action>) {
    actions != [] ==>
      var front := actions[..|actions| - 1];
      KeepsTime(par, now, front) && InTime(par, now, front, actions[|actions| - 1])
  }

  lemma {:induction false} InTimeIsDisciplined(par: Params, now: int, actions: seq<Action>, a: Action)
    requires par.B >= 1 && Guarded(par, now, actions) && InTime(par, now, actions, a)
    ensures UnlocksInTime(Play(par, now, actions), a) && DeletesWhatItRead(Play(par, now, actions), a)
  {
    var p := Play(par, now, actions);
    DatedThroughout(par, now, actions);
    if a.Tick? && p.key.Some? && InSection(At(p, p.key.value.owner)) { assert InSection(At(p, p.key.value.owner)); }
  }

  /** Servers that keep to the clock meet every guard, so the lock lasts for its lease. */
  lemma {:induction false} KeepsTimeIsEnough(par: Params, now: int, actions: seq<Action>)
    requires par.B >= 1 && par.lease > 0 && KeepsTime(par, now, actions)
    ensures Guarded(par, now, actions) && Disciplined(par, now, actions)
  {
    if actions != [] {
      var front := actions[..|actions| - 1];
      KeepsTimeIsEnough(par, now, front);
      InTimeIsDisciplined(par, now, front, actions[|actions| - 1]);
    }
    DisciplineIsEnough(par, now, actions);
  }

  /**
    A server that asks for the lock while another holds it takes the key for stale exactly when the
    second of a lease after the holder's clock reading has passed; otherwise it gives up.
   */
  lemma {:induction false} RobbedByClockIff(par: Params, now: int, actions: seq<Action>, holder: int, thief: int)
    requires par.B >= 1 && Guarded(par, now, actions)
    requires var p := Play(par, now, actions); InSection(At(p, holder)) && At(p, thief).Idle?
    ensures var p := Play(par, now, actions);
      var q := Looked(par, p, thief);
      && q.key == p.key && At(q, holder) == At(p, holder)
      && (At(q, thief).Stealing? || At(q, thief).Idle?)
      && (At(q, thief).Stealing? <==> Unix(p.now) > Unix(Began(par, now, actions, holder) + par.lease))
  {
    var p := Play(par, now, actions);
    DatedThroughout(par, now, actions);
    assert HeldBy(p, holder);
    LookedAtKey(par, p, thief);
  }

  lemma {:induction false} LookedAtKey(par: Params, p: State, thief: int)
    requires At(p, thief).Idle? && p.key.Some?
    ensures var q := Looked(par, p, thief);
      && q.key == p.key && (forall s :: s != thief ==> At(q, s) == At(p, s))
      && At(q, thief) == if Unix(p.now) > p.key.value.value then Stealing(p.key.value) else Idle
  {
    var p1 := Next(par, p, Begin(thief));
    var p2 := Next(par, p1, SetNX(thief));
    var p3 := Next(par, p2, Get(thief));
    assert At(p3, thief) == Read(p.key.value);
  }

  /**
    If SetNX is sent more than a second after the clock was read for it, there is a time within the
    lease at which another server takes the fresh key for stale and is about to delete it.
   */
  lemma {:induction false} LateSetNXIsRobbed(par: Params, now: int, actions: seq<Action>, holder: int, thief: int)
    requires par.B >= 1 && par.lease > 0 && Guarded(par, now, actions) && holder != thief
    requires var p := Play(par, now, actions);
      && p.key.None? && At(p, holder).Begun? && At(p, thief).Idle?
      && Began(par, now, actions, holder) + SECOND < p.now
    ensures var p, expiry := Play(par, now, actions), Began(par, now, actions, holder) + par.lease + SECOND;
      var t := if p.now > expiry then p.now else expiry;
      var q := Looked(par, Next(par, Next(par, p, SetNX(holder)), Tick(t)), thief);
      && t < p.now + par.lease && At(q, holder).Holding? && At(q, thief).Stealing?
      && DeletesWhatItRead(q, DelStale(thief)) && !Guard(q, DelStale(thief))
  {
    DatedThroughout(par, now, actions);
    LateKeyIsRobbed(par, Play(par, now, actions), holder, thief, Began(par, now, actions, holder));
  }

  // ---- a server alone ----

  /** `n` codes added in a row. */
  function Adding(par: Params, p: State, s: int, n: nat): State {
    if n == 0 then p else Next(par, Adding(par, p, s, n - 1), AddCode(s))
  }

  /** The state when the server has added `n` codes of the batch. */
  function Added(par: Params, p: State, s: int, n: nat): State {
    if n == 0 then p
    else Goto(p, s, if n < par.B then Pc.Adding(p.stored, n) else Saving(p.stored))
           .(log := p.log + BatchCodes(par.L, par.step, p.stored, n))
  }

  lemma {:induction false} AddedNext(par: Params, p: State, s: int, n: nat)
    requires At(p, s) == Pc.Adding(p.stored, 0) && n < par.B
    ensures Next(par, Added(par, p, s, n), AddCode(s)) == Added(par, p, s, n + 1)
  {
    var before, code := Added(par, p, s, n), BatchCode(par.L, par.step, p.stored, n);
    assert At(before, s) == Pc.Adding(p.stored, n);
    var pc := if n + 1 < par.B then Pc.Adding(p.stored, n + 1) else Saving(p.stored);
    assert before.pcs[s := pc] == p.pcs[s := pc];
    assert before.log + [code] == p.log + BatchCodes(par.L, par.step, p.stored, n + 1);
  }

  lemma {:induction false} AddingAlone(par: Params, p: State, s: int, n: nat)
    requires At(p, s) == Pc.Adding(p.stored, 0) && n <= par.B
    ensures Adding(par, p, s, n) == Added(par, p, s, n)
  {
    if n > 0 {
      AddingAlone(par, p, s, n - 1);
      AddedNext(par, p, s, n - 1);
    }
  }

  /** The commands up to the stored index. */
  function Entered(par: Params, p: State, s: int): State {
    Next(par, Next(par, Next(par, p, Begin(s)), SetNX(s)), GetStartIndex(s))
  }

  /**
    A server that finds the lock free and is not disturbed adds the batch at the stored index, counts
    it, and leaves the lock free; at an exhausted index it leaves everything as it was.
   */
  lemma {:induction false} AloneGenerates(par: Params, p: State, s: int)
    requires par.B >= 1 && At(p, s).Idle? && p.key.None?
    ensures var e := Entered(par, p, s);
      var saved := if p.stored <= par.step then Next(par, Adding(par, e, s, par.B), SaveStartIndex(s)) else e;
      var q := Next(par, saved, Unlock(s));
      && q.key.None? && q.now == p.now && (forall t :: At(q, t) == At(p, t))
      && (p.stored <= par.step ==>
            q.log == p.log + BatchCodes(par.L, par.step, p.stored, par.B) && q.stored == p.stored + 1)
      && (p.stored > par.step ==> q.log == p.log && q.stored == p.stored)
  {
    var e := Entered(par, p, s);
    EnteredIs(par, p, s);
    if p.stored <= par.step { AddingAlone(par, e, s, par.B); }
  }

  lemma {:induction false} EnteredIs(par: Params, p: State, s: int)
    requires At(p, s).Idle? && p.key.None?
    ensures var e := Entered(par, p, s);
      && e.key.Some? && e.now == p.now && e.log == p.log && e.stored == p.stored
      && At(e, s) == (if p.stored <= par.step then Pc.Adding(p.stored, 0) else Unlocking)
      && forall t :: t != s ==> At(e, t) == At(p, t)
  {
  }

  /** A server that was refused and then finds the key gone, or deletes it as stale, tries again and locks. */
  lemma {:induction false} RetryLocks(par: Params, p: State, s: int)
    requires (At(p, s).Refused? && p.key.None?) || At(p, s).Stealing?
    ensures var q := Next(par, if At(p, s).Refused? then Next(par, p, Get(s)) else Next(par, p, DelStale(s)), SetNX(s));
      At(q, s).Holding? && HeldBy(q, s) && q.key.value.deadline == p.now + par.lease
  {
  }
}
