# vshortlink: a Dafny model of the short-code lifecycle

vshortlink hands out short codes for URLs. Codes of a length are generated in strided batches, kept
in a pool, given to links, taken back a year after the link expired, and rebuilt from the repository
when the pool is lost. A cache in front of the repository answers redirects, an LRU sits in front of
the cache, hits are counted through a bounded channel, and several servers share one Redis.

The project models these parts and proves what holds of them over every run. The modules follow the
repository's packages:

| files | models |
|---|---|
| `Base62`, `Generator` | `cores/util.go`, `cores/gen.go`: the codec and the batches, with int64 wrap-around |
| `MemoryRepository`, `MemoryPool`, `MemoryCache`, `Stats` | `ext/memx`: the backends as classes over maps |
| `GormRepository` | `ext/gormx/repo.go`: the SQL table as a class over rows |
| `Service`, `HttpServer` | `cores/service.go`, `HttpHandle` of `cores/http.go`: the imperative code, each method tied to a step of the state machine |
| `Lifecycle`, `Rows` | the service as a state machine of values: `Apply` for one step, `Run` for a run |
| `Ownership`, `Exhaustion`, `ManualCodes`, `Startup`, `Cooling`, `Agreement`, `Sweeps` | theorems about every step and every run of that machine |
| `LastWrite`, `HandOut` | what a lookup by code finds after any run, what each step changes, and in which order codes go out |
| `TableScan` | the same machine over the SQL table, and its lockstep with the in-memory one |
| `Flight`, `FlightSafety`, `Interleaving`, `PageGrain` | the sweeps at the grain of the source, with pages in flight while other steps run: when they amount to the atomic steps, and what happens when not |
| `Goroutines`, `GoroutineSafety` | besides these, Creates with a pulled code in hand and generations that add a batch code by code, any number at once |
| `TableFlight`, `TableInterleaving` | the same over the SQL table, whose pages are copies |
| `Redirect`, `HalfWrites`, `Staleness` | many requests interleaved with the service's steps, its sweeps in flight and half-done writes, and how old a redirect can be |
| `RedisLock`, `DistributedGeneration`, `LockTime` | the lease lock around batch generation for any number of servers, in terms of its key and in terms of the clock |
| `RedisPool`, `RedisCache`, `RedisAgreement`, `RedisStats`, `Retention` | `ext/redisx`: sorted-set pool, cache values, TTL-trimmed counters, against their in-memory counterparts |
| `Recorder`, `HitConservation` | `cores/stats_recorder.go` under every interleaving |
| `Links`, `Collections` | the link record, the clock, and facts about sequences and sets |

The imperative code is modelled as classes and methods with loops. Each of their methods is proved
against a function of the old state, and the theorems are lemmas about these functions. A step that
the source can get wrong has an exact guard: in a state that satisfies the invariant, the step keeps
it if and only if the guard holds. That is so of ownership, agreement, cooling and the step with the
SQL table (the `StepKeepsOwnershipIff`, `StepKeepsAgreementIff`, `StepCoolsIff`, `StepInStepIff`), of
the same with pages in flight (`FineStepOwnsIff`, `FineStepAgreesIff`), of all goroutines together
(`MoveKeepsIff`), of half-done writes (`SoundNextIff`), of the lease lock and of the hit recorder. The
bounds on time in `StalenessBound` and `KeepsTimeIsEnough` are sufficient conditions.

The state machine of `Lifecycle` takes a sweep's work on one row as one step. The source reads a page,
drops or returns its rows and marks them in place, and writes the page back later, while other
goroutines run. `Flight` models that, for any number of sweeps. A run that leaves the rows in flight
alone is a run of `Lifecycle` (`FlightSafety.RunRefines`), so every run theorem carries over to it;
which steps leave them alone is an exact guard too (`FlightSafety.StepKeepsIntactIff`). A Create pulls
a code, writes the cache and inserts the row, and a generation reads the index, adds its codes one by
one and saves the next index, each a step of its own in `Goroutines`; run alone they are the steps of
`Lifecycle`.

Where the code departs from its documentation the model follows the code:

- `doc/design.md:282-283` rejects a batch when the index reaches the limit; `cores/gen.go:41` lets the
  batch at index == step pass. `Exhaustion` says exactly what that does.
- `doc/design.md:285` adds a minimum ID and `doc/design.md:230` a cooling offset to the score of a
  recycled code; the code has neither. Cooling is the 365 days RecycleExpires waits.

What the proofs brought out:

- A batch of two or more at index == step repeats all but the first code of batch 0. Ownership stays
  exclusive only if all of these are free, neither pooled nor with a live link (`LateBatchIff`), and no
  later rebuild of the in-memory pool repairs it (`LateRebuildNeverExclusive`); a rebuild of the Redis
  pool does, that pool being a set (`RebuiltSetExact`).
- The in-memory lock refuses nobody. Two Creates that leave ten codes or fewer start two generations,
  and these add one batch twice if both read the index before one saves the next
  (`TwoGenerationsShareBatch`).
- A rebuild while a pulled code is in hand pools it a second time (`RebuildSharesHand`). A rebuild
  between a row's return and its mark loses its code, unless the code is in hand already
  (`RebuildInPageLosesCode`, `RebuildInFlightIff`, `MoveKeepsIff`).
- The create endpoint checks the requested length but not the code's own length, so a pooled code
  can be added as a manual one (`PooledCodeIsAdmitted`). The in-memory repository reports a missing
  link as an error, which makes the same endpoint refuse every unused manual code
  (`EndpointCheckIsTheGuard`).
- A Create that pulls a code while its page is still being recycled meets every check, and then the
  write-back points the in-memory index at the old row (`CreateInPageMisleads`), until the sweep that
  marks the new link as Expired writes its entry back (`ExpiryRepairsIndex`). Over the SQL table the same run does no harm (`CreateInPagePartsThem`), but there an Update in mid-page is
  overwritten (`UpdateInPageIsOverwritten`), a Remove in mid-page is undone (`RemoveInPageIsRevived`),
  and two servers that sweep at once give one code two owners (`TwoSweepsShareCode`).
- Two Updates of one link that cross leave cache and row apart, unless they set the same link and
  expiry, until both expiries have passed (`CrossedUpdatesIff`) or a later Update repairs it.
- A restart with fewer than 100 pooled codes at index == step generates the batch that repeats codes
  by itself (`StartKeepsIff`).
- Adding a code that an Active link has makes the sweep of the first link hide the second
  (`DuplicateAddMisleads`).
- Pages in Go's map order sweep everything exactly when the rows fit one page
  (`ArbitraryOrderIsCompleteIff`).
- Removing a link does not clear the LRU: it redirects for exactly the TTL more
  (`RemovedLinkRedirectsForTtl`).
- The expiry stored in the lock key is computed before SetNX is sent. A SetNX more than a second late
  stores an expiry that passes before the server's own deadline, and then the lock can be stolen from
  a server within its lease (`RobbedByClockIff`, `LateSetNXIsRobbed`). Del takes any key, so a server that was robbed unlocks the thief
  (`RobbedUnlocksThief`), and a batch both added is counted once (`StolenBatchCountsOnce`).
- The Redis counters serve windows one day longer than their retention, which covers a query that
  midnight overtakes (`RetentionRefinesIff`, `WindowIsAlive`).
- Hits are lost exactly by a flush of which something does not reach the backend (`StepConservesIff`).
- The SQL repository answers 0 for the start index of length 0, whatever was saved (`StepInStepIff`).
- The largest code of lengths above 10 does not fit int64; with 11 characters the step is negative
  and nothing is generated (`StepExact`, `ElevenCharactersNeverGenerate`). A longer length whose step
  wraps to 0 or more generates distinct codes all the same (`NumbersInRange`, `AllCodesDistinct`).

## Model

| member | source | states |
|---|---|---|
| `Base62.ToBase62` | cores/util.go:29-48 | the division loop, reversal and padding compute Encode: the base-62 digits of the number, padded with zeros on the left, never cut |
| `Base62.ReverseString` | cores/util.go:51-57 | swapping from both ends reverses |
| `Base62.FromBase62` | cores/util.go:60-72 | positional value with int64 wrap-around; -1 from the first character outside the alphabet |
| `Base62.DecodeEncode` | cores/util.go:29-72 | every non-negative int64 comes back from its code, whatever length was asked for |
| `Base62.EncodeDecodeIff` | cores/util.go:29-72 | a string comes back from its number if and only if it is an alphabet string whose value fits int64 |
| `Base62.CodesAreBijective` | cores/util.go:29-72 | for lengths up to 10, numbers below 62^L and alphabet strings of length L correspond one to one |
| `Base62.Pow62FitsIff` | cores/util.go:60-72 | 62^L - 1 fits int64 if and only if L <= 10 |
| `Base62.AlphabetOrder` | cores/util.go:22-25 | the alphabet is 0 to 9, a to z, A to Z, in order |
| `Generator.ShortCodeGenerator.constructor` | cores/gen.go:31-37 | for every batch size but 0 the step is the decoded largest code divided by it, truncating towards zero |
| `Generator.ShortCodeGenerator.GenerateBatchNumbers` | cores/gen.go:40-51 | error exactly above the step; otherwise the batch's numbers by repeated wrapping addition |
| `Generator.NumberClosedForm` | cores/gen.go:45-49 | the i-th number of batch k is k + i * step, wrapped once |
| `Generator.StepExact` | cores/gen.go:31-37 | the largest code is read correctly if and only if L <= 10; then the step is the quotient, and between 1 and B numbers below 62^L are not below B times the step |
| `Generator.UnissuedIff` | cores/gen.go:40-51 | at index == step a string of the length was never issued if and only if its number is B times the step or more, so these are between 1 and B strings |
| `Generator.LargestIsOdd` | cores/gen.go:35 | the decoded largest code is odd for every length, wrapped or not, so it is never -2^63 and dividing it does not overflow |
| `Generator.ElevenCharactersNeverGenerate` | cores/gen.go:35-43 | with 11 characters the largest code wraps, and the step is negative for every batch size up to its magnitude |
| `Generator.BatchBijection` | cores/gen.go:45-49 | (index, i) -> index + i * step is one to one from [0,step) x [0,B) onto [0, B * step) |
| `Generator.BatchesShareIff` | cores/gen.go:40-51 | two accepted batches share a number if and only if they are the first and the one at index == step and B >= 2 |
| `Generator.NumbersInRange` | cores/gen.go:45-49 | for L <= 10, and for any length whose step is not negative, no number of an accepted batch wraps and each is below 62^L; for L <= 10 nor does the increment after the last wrap |
| `Generator.CodeLength` | cores/gen.go:40-51 | every generated code has exactly the requested length, also for lengths whose arithmetic wraps |
| `Generator.AllCodesDistinct` | cores/gen.go:40-51 | up to the capacity all batches together hold no code twice |
| `Generator.AllCodesSize` | cores/gen.go:40-51 | n accepted batches hold B * n codes |
| `Generator.BatchAtStepRepeats` | cores/gen.go:41-49 | the batch at index == step is batch 0 without its first code, and one code never issued before |
| `Links.Clock.Read` | ext/memx/cache.go:62 | the clock never goes back |
| `MemoryRepository.MemoryShortLinkRepository.Create` | ext/memx/repo.go:56-67 | next ID, row and index entry |
| `MemoryRepository.MemoryShortLinkRepository.Update` | ext/memx/repo.go:70-82 | replaces a stored row and points its code at it; a missing ID is an error that changes nothing |
| `MemoryRepository.MemoryShortLinkRepository.Updates` | ext/memx/repo.go:85-93 | writes rows in order and stops at the first missing one, keeping those before it |
| `MemoryRepository.MemoryShortLinkRepository.DeleteByCode` | ext/memx/repo.go:112-125 | deletes the index entry and only the row it leads to |
| `MemoryRepository.MemoryShortLinkRepository.GetByCode` | ext/memx/repo.go:128-138 | the row the index leads to |
| `MemoryRepository.MemoryShortLinkRepository.FindExpiredActives` | ext/memx/repo.go:154-176 | a page of the Active rows past their expiry with a larger ID: no other row, none twice, all of them if the page is not full; a limit below 1 gives at most one row |
| `MemoryRepository.MemoryShortLinkRepository.FindExpires` | ext/memx/repo.go:179-200 | the same for Expired rows and a given time |
| `MemoryRepository.MemoryShortLinkRepository.List` | ext/memx/repo.go:216-251 | the rows of a length and set of statuses after an ID, sorted by ID either way, cut at the limit |
| `MemoryRepository.MemoryShortLinkRepository.GetStartIndex` | ext/memx/repo.go:203-213 | the stored index, 0 when there is none |
| `MemoryRepository.MemoryShortLinkRepository.SaveStartIndex` | ext/memx/repo.go:254-261 | stores the index of one length and nothing else |
| `MemoryRepository.SortByID` | ext/memx/repo.go:236-244 | sorted by ID, same rows |
| `MemoryPool.MemoryShortCodePool.Pull` | ext/memx/pool.go:43-62 | hands out the first code and leaves the rest, the empty string of an empty pool; enough if and only if more than ten remain |
| `MemoryPool.MemoryShortCodePool.Add` | ext/memx/pool.go:65-79 | appends, also a code that is there already |
| `MemoryPool.MemoryShortCodePool.Size` | ext/memx/pool.go:82-92 | the number of pooled codes, repetitions included |
| `MemoryPool.MemoryShortCodePool.Remove` | ext/memx/pool.go:121-140 | takes out the first occurrence only |
| `MemoryPool.MemoryShortCodePool.Clear` | ext/memx/pool.go:143-151 | empties one length |
| `MemoryPool.MemoryShortCodePool.Lock` | ext/memx/pool.go:95-109 | never refuses: a running lease is left as it is, any other is replaced by a new one |
| `MemoryPool.MemoryShortCodePool.Unlock` | ext/memx/pool.go:112-118 | forgets the lock |
| `MemoryCache.MemoryShortLinkCache.Get` | ext/memx/cache.go:47-68 | answers an entry until its expiry, and deletes it when read later |
| `MemoryCache.MemoryShortLinkCache.Add` | ext/memx/cache.go:71-89 | puts or replaces one entry |
| `MemoryCache.MemoryShortLinkCache.Remove` | ext/memx/cache.go:92-104 | drops one entry |
| `GormRepository.GormShortLinkRepository.Create` | ext/gormx/repo.go:42-58 | inserts under the next ID, or under a given one not yet taken |
| `GormRepository.GormShortLinkRepository.Update` | ext/gormx/repo.go:61-73 | saves: replaces the row with the ID or inserts it |
| `GormRepository.GormShortLinkRepository.Updates` | ext/gormx/repo.go:76-103 | saves all rows in order |
| `GormRepository.GormShortLinkRepository.DeleteByCode` | ext/gormx/repo.go:117-125 | deletes every row with the code; none is no error |
| `GormRepository.GormShortLinkRepository.GetByCode` | ext/gormx/repo.go:128-145 | the row with the code and the largest ID, or nothing if no row has the code |
| `GormRepository.GormShortLinkRepository.FindExpiredActives` | ext/gormx/repo.go:164-184 | the first rows, by ID, of the Active ones past their expiry after an ID; no limit if it is negative |
| `GormRepository.GormShortLinkRepository.FindExpires` | ext/gormx/repo.go:187-207 | the same for Expired rows and a given time |
| `GormRepository.GormShortLinkRepository.List` | ext/gormx/repo.go:225-258 | as in memory, except that no status means any and a limit below 1 means none |
| `GormRepository.GormShortLinkRepository.GetStartIndex` | ext/gormx/repo.go:210-222 | the stored index, 0 when there is none; and always 0 for length 0, a model with ID 0 counting as none |
| `GormRepository.GormShortLinkRepository.SaveStartIndex` | ext/gormx/repo.go:261-278 | stores the index of one length, new or not, and nothing else |
| `Service.ShortLinkService.constructor` | cores/service.go:144-193 | a generator per length above the manual ones, and a first batch where fewer than 100 codes are pooled |
| `Service.ShortLinkService.Create` | cores/service.go:258-273 | the Create step: pull, then add whatever was pulled; asks for a batch if and only if ten or fewer codes are left |
| `Service.ShortLinkService.Add` | cores/service.go:275-295 | the Add step: cache entry and new Active row |
| `Service.ShortLinkService.Update` | cores/service.go:297-316 | the Update step: cache entry and row, whatever the status; a missing link is an error that changes nothing |
| `Service.ShortLinkService.Remove` | cores/service.go:389-402 | the Remove step: out of the cache in any case, out of the repository if indexed |
| `Service.ShortLinkService.BatchGenerate` | cores/service.go:318-355 | the Generate step; without a generator for the length the source dereferences nil |
| `Service.ShortLinkService.ExpireActives` | cores/service.go:357-387 | run alone: a run of ExpireOne steps and clock readings that marks no other row, none twice, and, with ordered pages or when all fit one page, every row due at the start |
| `Service.ShortLinkService.RecycleExpires` | cores/service.go:404-436 | run alone: a run of RecycleOne steps that recycles exactly the rows due, under the same condition |
| `Service.ShortLinkService.RebuildCodePool` | cores/service.go:440-494 | the Rebuild step: pool := all codes of the recorded batches minus one copy of the code of each Active or Expired link |
| `Service.ShortLinkService.RegenerateBatchAtIndex` | cores/service.go:497-518 | appends one batch again, nothing for a rejected index |
| `Service.ShortLinkService.RemoveUsedCodesFromPool` | cores/service.go:521-565 | over all pages of 1000, takes out the code of every Active or Expired link of the length, once each |
| `Rows.LiveIsNewest` | ext/memx/repo.go:56-82 | of tracked rows with one code at most one is live, and it is the newest |
| `Rows.InsertedTrackedIff` | ext/memx/repo.go:56-67 | a new link keeps its length's index sound if and only if no live link has its code |
| `Rows.MarkedRow` | ext/memx/repo.go:70-82 | marking a live row moves no other code's ownership |
| `Ownership.StepKeepsOwnershipIff` | cores/service.go:258-565 | each of the ten steps, a sweep's work on one row being one, keeps the ownership invariant of a generated length if and only if its guard holds: a manual code of that length only if it was issued and removed, and no batch at index == step |
| `Ownership.OwnershipAndConservation` | cores/service.go:258-436 | over every guarded run of these steps: no pooled code twice, none with a live link, one live link per code and it is the newest row; pool, live links and removed codes are disjoint and are exactly the codes issued, and their sizes add up to batchSize * startIndex |
| `Ownership.AddIff` | cores/service.go:275-295 | adding a code of a generated length keeps ownership if and only if it was removed before |
| `Ownership.GenerateIff` | cores/service.go:318-355 | generating keeps ownership if and only if the index is below step, or the batch size is 1 |
| `Ownership.CreateKeeps` | cores/service.go:258-273 | creating moves one code from pool to link; an empty pool does no harm to generated lengths |
| `Ownership.RecycleKeeps` | cores/service.go:421-432 | recycling, as one step, moves the code of an Expired link back |
| `Ownership.RebuildExact` | cores/service.go:440-565 | from any pool contents a rebuild leaves exactly the issued codes without a live link, each once, and rebuilding again changes nothing |
| `Ownership.RebuildRestores` | cores/service.go:440-565 | after any loss of the pool a rebuild restores the ownership invariant, removed codes returning to the pool |
| `Exhaustion.LateBatchIff` | cores/gen.go:41-49 | a batch of two or more at index == step leaves ownership exclusive if and only if step >= 1 and every repeated code is free, neither pooled nor with a live link |
| `Exhaustion.GeneratingOnLosesOwnership` | cores/service.go:318-355 | from an empty system, generating step + 1 batches of two or more loses exclusive ownership, and no fewer do |
| `Exhaustion.LateRebuildNeverExclusive` | cores/service.go:440-565 | once that batch is recorded, every rebuild of the in-memory pool leaves each repeated code in it, and ownership is not exclusive |
| `ManualCodes.PooledCodeIsAdmitted` | cores/http.go:153-177 | the create endpoint admits every pooled code as a manual one, and adding it gives the code two owners |
| `ManualCodes.AddExclusiveIff` | cores/service.go:275-295 | adding a link leaves ownership of a length exclusive if and only if its code, when of that length, is neither pooled nor of a live link |
| `StartupSafety.StartKeepsIff` | cores/service.go:178-187 | starting the service keeps a generated length owned if and only if it does not find fewer than 100 pooled codes at index == step with batches of two or more |
| `StartupSafety.FirstStartOwns` | cores/service.go:178-187 | a first start leaves every generated length owned, with batches of one or a step of at least 1 |
| `StartupSafety.StartFillsShortPools` | cores/service.go:178-187 | for every configured length the start appends the batch at the stored index to the pool and counts it, if fewer than 100 codes are pooled and the index is at most the step; otherwise it leaves pool and index, and in any case rows, cache and clock |
| `StartupSafety.FirstCreateHasCode` | cores/service.go:178-273 | after a first start a Create of a configured length with a step of 0 or more gets a code of that length, the zero code |
| `HandOut.PoolIsQueue` | ext/memx/pool.go:53-79 | over every run without a rebuild of the length: the codes Create handed out, and then those in the pool, are the codes pooled at first, and then those generated and recycled, in that order |
| `HandOut.CreateTakesFirst` | cores/service.go:258-273 | a Create gives a new Active link the first code of its pool, or the empty code of an empty one, with the title, URL and expiry asked for; the rest of the pool and all other rows and pools stay |
| `HandOut.RebuiltInOrder` | cores/service.go:440-565 | a rebuild of a generated length, up to the capacity, leaves the codes of all recorded batches in the order of generation, without those of links not Recycled, and touches nothing else |
| `HandOut.RebuiltEmpty` | cores/service.go:440-494 | a rebuild of a length without generator empties its pool |
| `LastWrite.LastWriteWins` | cores/service.go:258-316 | over every guarded run a lookup by code finds title, URL and expiry of the last Create, Add or Update of the code since it was last removed, and nothing if there is none; and the cache answers that URL if and only if the link is Active and unexpired |
| `LastWrite.OneRowChanges` | ext/memx/repo.go:56-125 | every step changes or deletes at most the row it concerns, adds at most one, Active and under the next ID, and never changes a row's ID, code or length |
| `LastWrite.SweepMarks` | cores/service.go:357-436 | a sweep's step marks a row if and only if it is due, Active and past its expiry, or Expired for more than 365 days; marking it Expired drops its cache entry, marking it Recycled puts its code at the end of its pool, and nothing else happens |
| `LastWrite.LookupDeletes` | ext/memx/cache.go:47-68 | a lookup deletes the entry of its code if that is past its expiry, and nothing else |
| `LastWrite.RemoveForgets` | cores/service.go:389-402 | from any state a Remove leaves no cache entry and no index entry of its code, deletes the row the entry led to, and touches nothing else |
| `LastWrite.RemoveUndoesAdd` | ext/memx/repo.go:56-125 | adding a link under an unused code and removing it leaves rows, index and pools as they were |
| `LastWrite.GenerateAppends` | cores/service.go:318-355 | a generation of a configured length appends the codes of the batch's numbers to its pool in order and counts it, if its index is at most the step, and else changes nothing |
| `Cooling.StepCoolsIff` | cores/service.go:404-436 | a step keeps every Recycled link of a length expired for 365 days if and only if it is not an Update of one with a later expiry |
| `Cooling.CoolingPeriod` | cores/service.go:404-436 | in a guarded run, whoever gets a generated code gets it more than 365 days after the stored expiry of every earlier link with that code that is still stored; without Remove all are |
| `Cooling.RemovedCodesReturnAtOnce` | cores/service.go:389-402 | a removed code does not cool: the next rebuild puts it into the pool |
| `Agreement.StepKeepsAgreementIff` | cores/service.go:258-436 | each of these steps keeps index and cache in agreement with the rows if and only if links are added under codes without a live link and Update is applied to an Active one, or sets a past expiry |
| `Agreement.AgreementThroughout` | ext/memx/cache.go:47-104 | so over every guarded run of these steps, with lazy deletion, sweep steps and the clock in any order |
| `Agreement.CacheRefinesRepository` | ext/memx/cache.go:47-68 | in an agreeing state a lookup hits with a URL if and only if an Active, unexpired link has that code and URL |
| `Agreement.IndexIsNewest` | ext/memx/repo.go:128-138 | an index entry is the newest row with its code; a code without entry has only Recycled rows |
| `Agreement.EndpointCheckIsTheGuard` | cores/http.go:153-168 | the endpoint's existence check is the guard for added links; where a missing link is an error, only codes with a Recycled row pass |
| `Agreement.DuplicateAddMisleads` | cores/service.go:275-295 | without the guard, the sweep of the first link hides the second, still Active one from cache and index |
| `Sweeps.OrderedSweepIsComplete` | cores/service.go:357-387 | pages in ID order of any size reach every row after the starting point |
| `Sweeps.ArbitraryOrderIsCompleteIff` | ext/memx/repo.go:161-173 | pages in arbitrary order always reach every row if and only if the rows fit one page |
| `FlightSafety.StepKeepsIntactIff` | cores/service.go:357-436 | with pages of any number of sweeps in flight, a step keeps their rows intact if and only if no link is created or added under the code of one, none that waits to be handled is removed or updated out of the sweep's reach, and no sweep reads a row another has open or the index does not lead to |
| `FlightSafety.StepRefines` | cores/service.go:357-436 | with the rows intact, each step of the source is one step of the service on the state in which handled rows count as marked, or none: handling a row is the sweep step; reading, marking and writing back are nothing. A rebuild must not meet a half-returned row whose code was issued |
| `FlightSafety.RunRefines` | cores/service.go:357-436 | so every undisturbed run of the source's steps amounts to a run of the service with atomic sweep steps |
| `Interleaving.FineStepAgreesIff` | cores/service.go:258-436 | at that grain a step keeps rows in flight intact and index and cache in agreement if and only if it disturbs no row in flight and the guard of the step it stands for holds |
| `Interleaving.FineStepOwnsIff` | cores/service.go:258-565 | the same for ownership of a length, and of a rebuild that no half-returned row has an issued code |
| `Interleaving.RebuildInFlightIff` | cores/service.go:421-565 | with pages in flight a rebuild of a length keeps it owned if and only if no row of it between its return and its mark is still stored with a code that was issued |
| `Interleaving.UsedInFlight` | cores/service.go:521-565 | the codes a rebuild takes out are those with a live link and those half-returned |
| `Interleaving.AgreementInFlight` | ext/memx/cache.go:47-104 | over every undisturbed, guarded run at that grain the cache answers what the rows say, and every hit is an Active, unexpired link with that URL |
| `Interleaving.OwnershipInFlight` | cores/service.go:258-436 | over every undisturbed, guarded run at that grain codes are owned exclusively and conserved, a returned row counting as Recycled |
| `Interleaving.WriteAgreesIff` | ext/memx/repo.go:70-93 | writing a row of a page back keeps agreement if and only if no newer row has its code |
| `Interleaving.MidPageAgreesIff` | cores/service.go:421-432 | a step between a row's mark and its write-back, its own guard met, leaves agreement after the write-back if and only if it does not create or add a link under the row's code |
| `Interleaving.DropAgreesIff` | cores/service.go:372-378 | dropping a row of a page from the cache keeps agreement if and only if no Active, unexpired link has its code |
| `Interleaving.CreateInPageMisleads` | cores/service.go:421-432 | for every agreeing state with an empty pool of the length: recycle a row, let a Create whose guard holds pull its code, write the page back; then the index leads to the Recycled row, the cache serves the new link, and the create endpoint admits the code again |
| `Interleaving.ExpiryRepairsIndex` | cores/service.go:357-387 | once the new link has expired, the sweep that marks it leaves what it would have left without the write-back, in agreement |
| `Interleaving.UpdateInPageIsUndone` | cores/service.go:362-380 | an Update between reading and handling is undone: the link is Expired before its new expiry and no longer served |
| `Interleaving.RebuildInPageLosesCode` | cores/service.go:421-426 | a rebuild between a row's return and its mark leaves its code neither pooled nor with a live link |
| `PageGrain.PageAlone` | cores/service.go:372-384 | a page whose steps run alone, in the source's order, leaves what the methods ExpirePage and RecyclePage ensure, and nothing in flight |
| `Goroutines.AloneIsGenerate` | cores/service.go:318-355 | a generation that nothing interrupts, read index, codes one by one, next index, is the Generate step |
| `Goroutines.AloneIsCreate` | cores/service.go:258-295 | a Create that nothing interrupts, pull, cache, row, is the Create step |
| `GoroutineSafety.MoveKeepsIff` | cores/service.go:258-565 | with any number of Creates, generations and sweeps under way, each step of each keeps every issued code of a length in exactly one place (pool, live link, in hand, still to be added, removed) if and only if its guard holds: a generation starts below index == step while no other of the length runs; no row is inserted under a code in flight; a manual code was removed before; and a rebuild finds in hand exactly those codes of finished batches that are half-returned, and no code of the running batch in the pool |
| `GoroutineSafety.OwnershipAmongGoroutines` | cores/service.go:258-565 | over every guarded run of these steps: no code is pooled twice, no two of pooled codes, live links and codes in hand share a code, and with those still to be added and those removed they count up to the batches begun |
| `GoroutineSafety.TwoGenerationsShareBatch` | cores/service.go:268-350 | from every such state in which a generation may start: two that read one index before one saves the next pool a code twice |
| `GoroutineSafety.SharedBatchCountsOnce` | cores/service.go:349-354 | when both have saved, the batch is counted once |
| `GoroutineSafety.RebuildSharesHand` | cores/service.go:440-565 | a rebuild while a pulled code of a finished batch is in hand, its old row marked, pools it again, and after the insert pool and live link share it |
| `TableRefinement.StepInStepIff` | ext/memx/repo.go:56-138 | a step, a sweep's work on one row being one, keeps the service over memory and the service over the SQL table in agreement (same rows but for leftover Recycled ones, same pools, cache and clock) if and only if it adds no link under a live code, and does not generate codes of length 0 when some were generated before |
| `TableRefinement.InStepThroughout` | ext/memx/repo.go:56-138 | so both stay in agreement over every run of these steps whose guards hold |
| `TableRefinement.IndexIsLargest` | ext/memx/repo.go:128-138 | the index has a code if and only if a table row has it, and it holds the largest ID with that code, in the table and in memory |
| `TableRefinement.GetByCodeAgrees` | ext/gormx/repo.go:128-145 | GetByCode finds the same row, or none, in both |
| `TableRefinement.ListAgrees` | ext/gormx/repo.go:225-258 | for limit >= 1, listings of Active and Expired links are the same page by page, in both orders |
| `TableRefinement.OrderedFinderAgrees` | ext/gormx/repo.go:164-207 | the finders' pages are the same when memory visits rows in ID order |
| `TableRefinement.RecycledListingsIff` | ext/memx/repo.go:112-125 | equal listings of Recycled links stay equal after a Remove if and only if every Recycled row with the code is the one its code leads to |
| `TableRefinement.RecycledRowStays` | ext/memx/repo.go:112-125 | so they differ after a twice issued code with a live link is removed: memory keeps the first row |
| `TableFlightSafety.StepKeepsCopiesIff` | ext/gormx/repo.go:61-103 | over the table a step keeps the pages in flight true copies if and only if it removes none of their rows, updates none to something else, and reads none in another sweep |
| `TableFlightSafety.TableRunRefines` | ext/gormx/repo.go:61-103 | every undisturbed run over the table amounts to a run with atomic sweep steps, also with links created under codes of the page |
| `TableInterleaving.FineStepsInStepIff` | ext/memx/repo.go:70-93 | undisturbed steps of the source on both sides that stand for the same service step keep memory and table in step if and only if the rows in flight in memory are left alone and the guard of the service step holds |
| `TableInterleaving.InStepInFlight` | ext/memx/repo.go:56-138 | undisturbed runs over memory and table that amount to the same service steps stay in step, however their sweeps interleave |
| `TableInterleaving.TableAgreementInFlight` | ext/memx/cache.go:47-104 | over every undisturbed, guarded run over the SQL table the cache answers what the newest row with the code says |
| `TableInterleaving.CreateInPagePartsThem` | ext/memx/repo.go:79 | the Create that misleads the in-memory index leaves the table right, so the two answer the code differently afterwards |
| `TableInterleaving.UpdateInPageIsOverwritten` | ext/gormx/repo.go:91-99 | over the table an Update of a link in flight is overwritten by the copy, while its cache entry stays |
| `TableInterleaving.RemoveInPageIsRevived` | ext/gormx/repo.go:91-99 | saving the copy of a link removed meanwhile inserts it again |
| `TableInterleaving.TwoSweepsShareCode` | cores/service.go:404-436 | two servers that read the same page pool a code again after a new link has it |
| `HttpServer.ShortLinkServer.HttpHandle` | cores/http.go:36-73 | a preflight and the root answer OK, a path with the management prefix goes to management; any other code redirects to a URL if and only if it is at most of the maximal length and the LRU remembers that URL, or the LRU has none and the cache answers it, not empty; else nothing is found. With cache and rows in agreement and an empty LRU it redirects to a URL if and only if an Active, unexpired link has code and URL. The hit is recorded exactly on a redirect, and the effect is that of the listed steps of the request machine |
| `HttpServer.ShortLinkServer.GetMemLRUCache` | cores/lru.go:24-26 | an entry answers up to the TTL after it was added |
| `HttpServer.ShortLinkServer.AddMemLRUCache` | cores/lru.go:20-22 | the entry is there with the current time; any others may go |
| `Staleness.StalenessBound` | cores/http.go:59-72 | in every interleaving of requests, sweeps in flight and the halves of Adds and Updates whose guards hold and whose writes are finished, a redirect at t goes to a URL an Active link with that code had at some time in [t - TTL - 2 * delay, t + lag], delay bounding one request and lag the time between the halves of a write; with both 0, in [t - TTL, t] and unexpired |
| `Staleness.SoundThroughout` | cores/service.go:275-316 | over such a run rows in flight stay intact and cache and rows agree but for the links being written, where the cache is ahead |
| `Staleness.SoundNextIff` | cores/service.go:275-316 | each step of the service, a sweep or either half of an Add or Update keeps that so if and only if its guard holds: a write begins when no other of the link is under way and an Update finds it Active or sets a past expiry; it finishes on no live link and no row in flight; and other steps leave the cache ahead by every half-done write they meet |
| `Staleness.RequestBetweenHalves` | cores/service.go:276-289 | a request between the halves of an Add redirects to a URL no link has yet |
| `Staleness.CrossedUpdatesIff` | cores/service.go:307-315 | two Updates of one Active link whose halves cross leave cache and row in agreement, at any later time, if and only if they set the same link and expiry or both expiries have passed by then; until then the cache has the second and the row the first; for a link that is not Active, if and only if the second expiry has passed |
| `Staleness.AloneIsUpdate` | cores/service.go:297-316 | the two halves of an Update with nothing in between are the Update step |
| `Staleness.AloneIsAdd` | cores/service.go:275-295 | and those of an Add are the Add step |
| `Staleness.RemoveBetweenHalves` | cores/service.go:297-402 | a Remove between the halves of an Update wins: neither row nor cache entry is left |
| `Staleness.RemovedLinkRedirectsForTtl` | cores/http.go:59-68 | after Remove no link has the code, and yet it redirects if and only if the TTL since it was kept has not passed |
| `DistributedGeneration.StepKeepsIff` | ext/redisx/pool.go:134-185 | each Redis or repository command of each server keeps the lock invariant if and only if it does not let the key of a server in its section run out or delete it |
| `DistributedGeneration.GenerationIsExclusive` | cores/service.go:318-355 | over every guarded interleaving of any number of servers: at most one is between taking and releasing the lock, no code is added twice within the capacity, and with nobody inside the stored index counts exactly the batches added |
| `LockTime.KeepsTimeIsEnough` | ext/redisx/pool.go:134-185 | if every SetNX is sent no later than the second a lease after the clock was read for it, every holder leaves its section while that second has not passed and before a lease has passed since its SetNX, and a stale Del hits only the key that was read, then no guard is violated: nobody loses the lock |
| `DistributedGeneration.RobbedIff` | ext/redisx/pool.go:147-173 | a server in its section and before its key's deadline can be robbed by one that reads the key now if and only if the expiry stored in the key has passed |
| `LockTime.RobbedByClockIff` | ext/redisx/pool.go:134-173 | a server that asks for the lock while another is in its section goes on to delete the key if and only if the second a lease after the holder's clock reading has passed; otherwise it gives up |
| `LockTime.KeyRunsOutIff` | ext/redisx/pool.go:136 | the key of a holder runs out if and only if a lease has passed since its SetNX was sent |
| `LockTime.TickGuardIff` | ext/redisx/pool.go:136 | time passing violates no guard if and only if no holder is in its section a lease after its SetNX was sent |
| `LockTime.AloneGenerates` | cores/service.go:318-355 | a server that finds the lock free and is not disturbed adds the batch at the stored index in order, saves the next index and leaves the lock free, if the index is at most the step; otherwise it leaves everything as it was |
| `LockTime.RetryLocks` | ext/redisx/pool.go:147-173 | a server that was refused and then finds the key gone, or deletes a stale one, tries again and locks |
| `LockTime.LateSetNXIsRobbed` | ext/redisx/pool.go:136-173 | if SetNX is sent more than a second after the clock was read for it, there is a time within the lease of the key at which another server takes it for stale and is about to delete it |
| `DistributedGeneration.StolenLockRepeatsBatch` | ext/redisx/pool.go:170-173 | deleting the key of a server that is adding leads to two servers adding the same batch, and its first code is added twice |
| `DistributedGeneration.StolenBatchCountsOnce` | cores/service.go:349-354 | two servers that added one batch save the same next index |
| `DistributedGeneration.RobbedUnlocksThief` | ext/redisx/pool.go:182-185 | Unlock deletes the key of whoever has it, also of a server in its section |
| `RedisPool.RedisShortCodePool.Pull` | ext/redisx/pool.go:77-106 | pops the member of least score, ties in lexicographic order; enough if and only if more than a hundred remain |
| `RedisPool.RedisShortCodePool.Add` | ext/redisx/pool.go:109-120 | a member gets the current second as its score, new or not |
| `RedisPool.RedisShortCodePool.Remove` | ext/redisx/pool.go:188-196 | takes the code out altogether |
| `RedisPool.RedisShortCodePool.Clear` | ext/redisx/pool.go:199-207 | deletes the set of one length |
| `RedisPool.FirstExists` | ext/redisx/pool.go:77-95 | a non-empty sorted set has a first member |
| `RedisPool.LexLessIff` | ext/redisx/pool.go:77-95 | ties are broken lexicographically: a proper prefix, or the smaller character at the first difference, goes first |
| `PoolAgreement.AddAgreesIff` | ext/redisx/pool.go:109-120 | adding keeps set and in-memory queue in agreement if and only if the code is not there yet |
| `PoolAgreement.RemoveAgrees` | ext/redisx/pool.go:188-196 | removing a code keeps set and queue in agreement |
| `PoolAgreement.PullAgreesIff` | ext/redisx/pool.go:77-106 | a pull keeps them in agreement if and only if both hand out the same code |
| `PoolAgreement.PullIsFirstToTheSecond` | ext/redisx/pool.go:77-106 | what Redis hands out was added in the same second as the queue's oldest code, the queue being in order of adding |
| `PoolAgreement.RebuiltSetExact` | cores/service.go:440-565 | over Redis a rebuild leaves exactly the issued codes without a live link for every stored index |
| `PoolAgreement.RebuiltSetAgrees` | cores/service.go:440-565 | up to the capacity it leaves the same codes as in memory |
| `RedisCache.RedisShortLinkCache.Get` | ext/redisx/cache.go:68-99 | answers a readable value until its expiry second; deletes it when read later; an unreadable one is a miss and stays |
| `RedisCache.RedisShortLinkCache.Add` | ext/redisx/cache.go:102-111 | stores link, newline and Unix second |
| `RedisCache.RedisShortLinkCache.Remove` | ext/redisx/cache.go:114-121 | drops one field |
| `RedisCache.ValueRoundTrip` | ext/redisx/cache.go:129-143 | for every link and int64 timestamp, negative ones included: both come back if the link has no newline, and otherwise the value reads as a miss |
| `RedisCache.DeletedIff` | ext/redisx/cache.go:68-99 | a lookup deletes an added value if and only if it is past its expiry second and the link has no newline |
| `RedisCache.ParseIntIff` | ext/redisx/cache.go:129-143 | the second part is read as a number if and only if it is an optional sign and decimal digits within int64 |
| `RedisCache.AgreesWithMemoryIff` | ext/redisx/cache.go:68-111 | for an entry just added Redis and memory answer alike if and only if the entry is past its expiry, or the link has no newline and it is not the last, cut-off fraction of a second |
| `RedisAgreement.FollowsThroughout` | ext/redisx/cache.go:68-121 | over every run the Redis cache answers a code like the in-memory one, now and at every later time, except for links with a newline and in the cut-off fraction of their last second |
| `RedisAgreement.RedisCacheRefinesRepository` | ext/redisx/cache.go:68-121 | over every guarded run a lookup in Redis hits with a URL if and only if an Active, unexpired link has that code and URL, without newline and not in that fraction |
| `Stats.MemoryShortLinkStats.IncrBatch` | ext/memx/stats.go:40-56 | adds every delta to its day; an empty batch leaves no trace |
| `Stats.MemoryShortLinkStats.Get` | ext/memx/stats.go:58-73 | the non-zero counts of one code on the given days |
| `Stats.MemoryShortLinkStats.BatchGet` | ext/memx/stats.go:75-99 | for repeated codes and days too, each requested code with a non-empty single query has that query's result, and no other code is there |
| `Stats.QueriesAgree` | ext/memx/stats.go:40-99 | after any batches: batch and single queries agree, and a single query has exactly the days whose deltas do not sum to zero, with the sum |
| `RedisStats.RedisShortLinkStats.IncrBatch` | ext/redisx/stats.go:86-99 | increments what is alive of the day's hash and sets its TTL again, a day over the retention |
| `RedisStats.RedisShortLinkStats.Get` | ext/redisx/stats.go:102-130 | the non-zero counts of one code in the day hashes still alive |
| `RedisStats.RedisShortLinkStats.BatchGet` | ext/redisx/stats.go:135-181 | the same as one query per code |
| `Retention.KeepsUpThroughout` | ext/redisx/stats.go:77-99 | after every history of flushes made on their own day, each day hash holds the untrimmed counts and lives for the retention after its day |
| `Retention.WindowIsAlive` | ext/redisx/stats.go:77-130 | a query for the last days, answered some days later, shows the untrimmed counts while window and delay stay within the retention and one day |
| `Retention.RetentionRefinesIff` | ext/redisx/stats.go:77-130 | for timely flushes all queries over a window agree with the never trimmed store if and only if the window is at most one day longer than the retention |
| `Retention.BatchRetention` | ext/redisx/stats.go:135-181 | the same for batch queries |
| `StatsQuery.GetStats` | cores/service.go:230-241 | if the backend retains at least as long as the service asks and answers by the next day: a day is in the answer if and only if the hits sent for it do not sum to zero and it is one of the last w days up to today, with that sum; w is the number of days asked for if that is from 1 to the retention, and the retention otherwise |
| `StatsQuery.BatchGetStats` | cores/service.go:245-256 | the same for each requested code that has such a day, and no other code is there |
| `Recorder.StatsRecorder.Record` | cores/stats_recorder.go:56-62 | buffers the hit, or counts a drop when the buffer is full |
| `Recorder.StatsRecorder.FlushNow` | cores/stats_recorder.go:100-113 | nothing to send is no flush; otherwise one backend call, of which all, some or none of the increments take effect, and the drop counter starts again, error or not |
| `Recorder.StatsRecorder.Run` | cores/stats_recorder.go:65-87 | from any state of channel, map and backend: the select loop, the stop, the drain, the final flush and the return, with calls of Record anywhere in between, is a play of the atomic steps that ends stopped |
| `Recorder.StatsRecorder.Turn` | cores/stats_recorder.go:78-84 | a turn of the select that is not the stop is one step, or none |
| `Recorder.StatsRecorder.Drain` | cores/stats_recorder.go:89-98 | merges everything buffered and everything accepted meanwhile, once each, and leaves the channel empty |
| `Recorder.DayList` | cores/stats_recorder.go:116-126 | the last days up to today, ascending, one after the other; filled from the back |
| `HitConservation.StepConservesIff` | cores/stats_recorder.go:56-113 | each step of each goroutine keeps the books (counts at the start + accepted hits = channel + merge map + backend over all days; calls = accepted + dropped) if and only if it is not a flush of which some code's increment does not reach the backend |
| `HitConservation.ConservedThroughout` | cores/stats_recorder.go:56-113 | so over every interleaving while no flush fails, over a backend that held any counts |
| `HitConservation.NothingLostAtReturn` | cores/stats_recorder.go:65-113 | when run has returned, every accepted hit is in the backend exactly once or came after the drain and is in the channel, although the final flush does not clear the map |
| `HitConservation.FlushConservesIff` | cores/stats_recorder.go:100-113 | a flush conserves hits if and only if every increment it sends reaches the backend |
| `HitConservation.TickerSends` | cores/stats_recorder.go:81-113 | the ticker's flush adds each merged count that reaches the backend to its code on that day and to nothing else, and merging starts again from nothing |
| `HitConservation.FinalFlushSends` | cores/stats_recorder.go:70-113 | the final flush adds the same |
| `HitConservation.ReceiveTakesFirst` | cores/stats_recorder.go:78-80 | run takes the oldest buffered code and counts it once |
| `HitConservation.ChannelIsBounded` | cores/stats_recorder.go:56-62 | the channel never exceeds its capacity, and a hit is dropped if and only if it is full |
| `HitConservation.MergedTotal` | ext/memx/stats.go:40-56 | merging a batch raises each code's total over all days by its delta |

## Left out

- HTTP management handlers apart from the create endpoint's checks, JSON, the token, logging, writing the redirect: input and output.
- Service options, environment, examples, Close methods, tickers and goroutine start: a run is any sequence of steps.
- The Redis and MySQL clients, key names and the gorm conversion: their state is maps, a sorted set and a table. SQL queries are scans in ID order.
- The LRU's own list and eviction order: it is a map whose entries answer up to the TTL and may be dropped at any time. A TTL of 0 or less, which the library replaces by a long one, is taken as given.
- Go's mutexes: a method of the in-memory backends is one atomic step.
- Ownership.OwnershipAndConservation: Create (pull, cache, row) and batchGenerate are one step each, also in Interleaving.OwnershipInFlight; GoroutineSafety.OwnershipAmongGoroutines takes them apart. RebuildCodePool is one step everywhere, so steps between its clearing, its batches and its pages of used codes are not modelled.
- GoroutineSafety.MoveKeepsIff: Add and Update are one step; their halves are apart in Redirect, and ownership does not look at the cache. A generation that stops on a backend error after some of its codes is not modelled.
- LockTime.KeepsTimeIsEnough: all servers read one clock, while the source compares the clock of one machine with an expiry another has stored; clock skew is not modelled.
- GormRepository.GormShortLinkRepository.SaveStartIndex: what MySQL does with a zero primary key depends on the schema; the model stores it.
- Agreement.AgreementThroughout: Add and Update write cache and row in one step; their halves are apart in Redirect and Staleness, where GetByCode and the cache write of an Update are one step.
- TableFlightSafety.TableRunRefines: the rows of a page are saved one by one, which covers the transaction of the source; a transaction that fails half-way is not modelled.
- Links are values, and a sweep's pointer to a row is the row's ID. The assignment of a status through that pointer is a step of its own in Flight, ahead of Updates; an Update of the service assigns its fields and calls Repo.Update in one step.
- CreateTime and ModifyTime of rows, and Delete and GetByID of the repositories: the service uses none of them.
- Backend errors, except a failing flush of the recorder, a missing link, and a duplicate key. A step that fails half-way is not modelled.
- int64 wrap-around of row IDs, hit counts, the stored index and clock arithmetic: numbers there are unbounded. The generator and the codec do wrap.
- Strings are sequences of characters, so the length of a code is its number of characters; the source counts bytes, the same for codes of the alphabet.
- Time zones and calendar formatting: days are numbered, and a day is 24 hours.
- Service.ShortLinkService.constructor: manual code lengths below -1 (strings.Repeat panics) and batch sizes below 1 (0 divides by zero; with a negative one nothing is generated, or make panics) are excluded by its precondition.
- `ordered` of the in-memory repository: its finders visit rows in Go's arbitrary order, or by ID as the SQL backend sorts; the service is proved for both.
- MemoryRepository.MemoryShortLinkRepository.List: limits below 0, for which the source panics when slicing.
- Sensitive-word filtering and the minimum ID offset of doc/design.md: not in the code.
- Service.ShortLinkService.BatchGenerate: calls the in-memory Lock, which never refuses; the lock protocol with several servers is in RedisLock.
- RedisStats.RedisShortLinkStats.IncrBatch: one pipeline is one atomic step, while Redis may run other commands in between.
