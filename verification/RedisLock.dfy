/**
  The lease lock of ext/redisx/pool.go around batch generation, for any number of servers whose
  single Redis and repository commands interleave.
 */
module RedisLock {
  import opened Collections
  import opened Generator
  import opened Links

  /** One code length: its generator, and the lease of a lock. */
  datatype Params = Params(L: nat, B: nat, step: int, lease: nat)

  /** The lock key: who set it, the expiry stored in it, when the server drops it, and which setting it is. */
  datatype Key = Key(owner: int, value: int, deadline: int, serial: nat)

  /** Where a server is between two commands. */
  datatype Pc =
    | Idle
    | Begun(value: int)                 // read the clock; SetNX is next
    | Refused                           // SetNX failed; Get is next
    | Read(seen: Key)                   // got the key; the comparison is next
    | Stealing(seen: Key)               // found it expired; Del is next
    | Holding                           // has the lock; GetStartIndex is next
    | Adding(index: int, i: nat)        // adds code i of batch index
    | Saving(index: int)                // SaveStartIndex is next
    | Unlocking                         // Del is next

  /** `log` lists every code ever added to the pool by generation, in order. */
  datatype State = State(key: Option<Key>, now: int, pcs: map<int, Pc>, stored: int, log: seq<string>, serial: nat)

  datatype Action =
    | Tick(t: int)
    | Begin(s: int)
    | SetNX(s: int)
    | Get(s: int)
    | Compare(s: int)
    | DelStale(s: int)
    | GetStartIndex(s: int)
    | AddCode(s: int)
    | SaveStartIndex(s: int)
    | Unlock(s: int)

  function At(p: State, s: int): Pc {
    if s in p.pcs then p.pcs[s] else Idle
  }

  function Goto(p: State, s: int, pc: Pc): State {
    p.(pcs := p.pcs[s := pc])
  }

  function Deadline(par: Params, p: State): Pc {
    Begun(Unix(p.now + par.lease))
  }

  /** One command of one server, or the clock; a command a server is not at changes nothing. */
  function Next(par: Params, p: State, a: Action): State {
    match a
    case Tick(t) =>
      if t < p.now then p
      else p.(now := t, key := if p.key.Some? && t >= p.key.value.deadline then None else p.key)
    case Begin(s) => if At(p, s).Idle? then Goto(p, s, Deadline(par, p)) else p
    case SetNX(s) =>
      if !At(p, s).Begun? then p
      else if p.key.Some? then Goto(p, s, Refused)
      else
        Goto(p, s, Holding).(key := Some(Key(s, At(p, s).value, p.now + par.lease, p.serial)), serial := p.serial + 1)
    case Get(s) =>
      if !At(p, s).Refused? then p
      else if p.key.None? then Goto(p, s, Deadline(par, p))
      else Goto(p, s, Read(p.key.value))
    case Compare(s) =>
      if !At(p, s).Read? then p
      else Goto(p, s, if Unix(p.now) > At(p, s).seen.value then Stealing(At(p, s).seen) else Idle)
    case DelStale(s) =>
      if !At(p, s).Stealing? then p else Goto(p, s, Deadline(par, p)).(key := None)
    case GetStartIndex(s) =>
      if !At(p, s).Holding? then p
      else Goto(p, s, if p.stored > par.step then Unlocking else Adding(p.stored, 0))
    case AddCode(s) =>
      if !At(p, s).Adding? then p
      else
        var Adding(index, i) := At(p, s);
        Goto(p, s, if i + 1 < par.B then Adding(index, i + 1) else Saving(index))
          .(log := p.log + [BatchCode(par.L, par.step, index, i)])
    case SaveStartIndex(s) =>
      if !At(p, s).Saving? then p else Goto(p, s, Unlocking).(stored := At(p, s).index + 1)
    case Unlock(s) => if !At(p, s).Unlocking? then p else Goto(p, s, Idle).(key := None)
  }

  function Start(now: int): State {
    State(None, now, map[], 0, [], 0)
  }

  function Play(par: Params, now: int, actions: seq<Action>): State {
    if actions == [] then Start(now)
    else Next(par, Play(par, now, actions[..|actions| - 1]), actions[|actions| - 1])
  }

  /** The server has taken the lock and not yet released it. */
  predicate InSection(pc: Pc) {
    pc.Holding? || pc.Adding? || pc.Saving? || pc.Unlocking?
  }

  predicate HeldBy(p: State, s: int) {
    p.key.Some? && p.key.value.owner == s
  }

  ghost predicate Exclusive(p: State) {
    forall s :: InSection(At(p, s)) ==> HeldBy(p, s)
  }

  /** What the holder has added beyond the recorded batches. */
  function Unrecorded(par: Params, p: State): seq<string> {
    if p.key.None? then []
    else match At(p, p.key.value.owner)
      case Adding(index, i) => BatchCodes(par.L, par.step, index, i)
      case Saving(index) => BatchCodes(par.L, par.step, index, par.B)
      case _ => []
  }

  predicate PcOk(par: Params, p: State, pc: Pc) {
    match pc
    case Adding(index, i) => index == p.stored <= par.step && i < par.B
    case Saving(index) => index == p.stored <= par.step
    case _ => true
  }

  ghost predicate Inv(par: Params, p: State) {
    && Exclusive(p) && 0 <= p.stored
    && (forall s :: PcOk(par, p, At(p, s)))
    && p.log == AllCodes(par.L, par.B, par.step, p.stored) + Unrecorded(par, p)
  }

  /** The key of a server in its section does not run out, and is not deleted by another. */
  predicate Guard(p: State, a: Action) {
    match a
    case Tick(t) =>
      p.key.Some? && InSection(At(p, p.key.value.owner)) && t >= p.now ==> t < p.key.value.deadline
    case DelStale(s) =>
      At(p, s).Stealing? && p.key.Some? ==> !InSection(At(p, p.key.value.owner))
    case _ => true
  }
}
