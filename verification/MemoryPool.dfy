/** The in-memory code pool of ext/memx/pool.go. */
module MemoryPool {
  import opened Collections
  import opened Links

  type Pools = map<int, seq<string>>

  function PoolOf(pools: Pools, length: int): seq<string> {
    if length in pools then pools[length] else []
  }

  /** The code a pull hands out: the oldest, or the empty string of an empty pool. */
  function Oldest(pools: Pools, length: int): string {
    if PoolOf(pools, length) == [] then "" else PoolOf(pools, length)[0]
  }

  function Pulled(pools: Pools, length: int): Pools {
    if PoolOf(pools, length) == [] then pools else pools[length := PoolOf(pools, length)[1..]]
  }

  function Appended(pools: Pools, length: int, codes: seq<string>): Pools {
    pools[length := PoolOf(pools, length) + codes]
  }

  class MemoryShortCodePool {
    var pools: Pools
    var lockStatus: map<int, int>
    const clock: Clock

    constructor (clock: Clock)
      ensures pools == map[] && lockStatus == map[] && this.clock == clock
    {
      pools, lockStatus := map[], map[];
      this.clock := clock;
    }

    /** `enough` is false when ten or fewer codes remain. */
    method Pull(length: int) returns (code: string, enough: bool)
      modifies this`pools
      ensures code == Oldest(old(pools), length) && pools == Pulled(old(pools), length)
      ensures PoolOf(old(pools), length) != [] ==> PoolOf(old(pools), length) == [code] + PoolOf(pools, length)
      ensures PoolOf(old(pools), length) == [] ==> code == "" && pools == old(pools)
      ensures enough <==> |PoolOf(pools, length)| > 10
    {
      if length !in pools || |pools[length]| == 0 {
        return "", false;
      }
      code := pools[length][0];
      pools := pools[length := pools[length][1..]];
      enough := |pools[length]| > 10;
    }

    method Add(length: int, shortCode: string)
      modifies this`pools
      ensures pools == Appended(old(pools), length, [shortCode])
    {
      if length !in pools {
        pools := pools[length := []];
      }
      pools := pools[length := pools[length] + [shortCode]];
    }

    method Size(length: int) returns (size: int)
      ensures size == |PoolOf(pools, length)|
    {
      size := if length in pools then |pools[length]| else 0;
    }

    /** Takes the first occurrence out. */
    method Remove(length: int, shortCode: string)
      modifies this`pools
      ensures pools == if length in old(pools)
                       then old(pools)[length := RemoveFirst(old(pools)[length], shortCode)] else old(pools)
    {
      if length !in pools {
        return;
      }
      var codes := pools[length];
      for i := 0 to |codes|
        invariant pools == old(pools) && shortCode !in codes[..i]
      {
        if codes[i] == shortCode {
          RemoveFirstAt(codes, i);
          pools := pools[length := codes[..i] + codes[i + 1..]];
          return;
        }
      }
      assert codes == codes[..|codes|];
      RemoveFirstAbsent(codes, shortCode);
      assert pools == pools[length := codes];
    }

    method Clear(length: int)
      modifies this`pools
      ensures pools == old(pools)[length := []]
    {
      pools := pools[length := []];
    }

    /**
      Succeeds even while another holder's lease runs, and then leaves that lease: this lock does
      not exclude. Otherwise, at `at`, it records a new one.
     */
    method Lock(length: int, expire: int) returns (ok: bool, ghost at: int)
      modifies this`lockStatus, clock
      ensures ok && old(clock.now) <= at <= clock.now
      ensures lockStatus ==
        if length in old(lockStatus) && at < old(lockStatus)[length] then old(lockStatus)
        else old(lockStatus)[length := clock.now + expire]
    {
      at := clock.now;
      if length in lockStatus {
        var now := clock.Read();
        at := now;
        if now < lockStatus[length] {
          return true, at;
        }
      }
      var now := clock.Read();
      lockStatus := lockStatus[length := now + expire];
      ok := true;
    }

    method Unlock(length: int)
      modifies this`lockStatus
      ensures lockStatus == old(lockStatus) - {length}
    {
      lockStatus := lockStatus - {length};
    }
  }
}
