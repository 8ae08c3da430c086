# Verified core of a StakeCubeCoin node

A Dafny model of the parts of the node whose correctness rests on invariants, histories or multi-word
arithmetic, with proofs about it. `dafny verify dfyconfig.toml` checks everything.

| component | files |
|---|---|
| address manager (`CAddrMan`) | `AddrManState` (records, operations as state functions), `AddrManInvariant`, `AddrManOperations`, `AddrManRuns` (what every call and run keeps), `AddrManEffects` (what each call changes and leaves), `AddrManSpread` (what one address range can reach), `AddrManObject` (the step-by-step code), `AddrManCheck` (its own self test), `AddrManImage`, `AddrManStream`, `AddrManReader`, `AddrManRestored` (saving and loading), `AddrManPorts` (where these fail) |
| layered coin cache (`CCoinsViewCache`) | `CoinsModel`, `CoinsCache`, `CoinsStack` |
| script-check queue (`CCheckQueue`) | `CheckQueue` |
| cuckoo cache, rolling Bloom filter | `CuckooCache`, `CuckooRuns`, `RollingBloom` |
| 256-bit integers, compact targets, block proof | `Limbs`, `LimbShifts`, `ArithUint256`, `CompactTarget` |
| block tree and active chain | `BlockTree` |
| database transactions and their iterators | `ByteOrder`, `DbTransaction`, `DbIterator` |
| compact blocks (BIP 152) | `BlockEncodings`, `BlockReconstruction` |
| Golomb-coded filters (BIP 158) | `BitStream`, `GolombRice`, `BlockFilter` |
| Base58, Bech32 (BIP 173) | `BaseDigits`, `Base58`, `Bech32Checksum`, `Bech32Remainder`, `Bech32`, `Bech32Vector` |
| shared facts | `Collections`, `Powers` |

Conventions. Hash functions, clocks, random draws, `CheckBlock` and the bucket sizes of hash tables are
parameters, so every statement holds for all of them. Objects that the program changes in place are classes;
each method is proved equal to a function of the old state or to a direct property, and theorems about whole
runs follow. Where the code is a protocol between threads it is a state machine, one step per stretch between
lock operations. Machine words appear as bounded numbers with the wrap-around written out, or as their bits
where the code works bitwise. C++ exceptions and error codes are results; nothing is excluded by a precondition
that the code itself handles.

Where code and comments disagree the model follows the code:

- `cuckoocache.h` says the first element displaced by `insert` is at the first location; starting from the
  impossible position the code picks the second one.
- Without port discrimination `Check_` and `Unserialize` use addresses as they are, while the index is keyed by
  addresses with port 0. `InvariantPasses` and `RestoredInvariant` state exactly when each still works;
  `CheckFails` and `LoadingFails` give runs that end where they do not.
- `AddCoin` keeps a cache sound exactly under the condition in `AddedKeeps`, which its caller has to guarantee.
- `Clear` leaves pending collisions behind; `ClearedInv` states exactly when the result is sound.
- `LastCommonAncestor` expects all branches to meet at the genesis block; for blocks with different roots its
  assertion still holds and it returns null.
- A filter with more than 33554432 elements can be built, but reading its size back is refused, so `Match`
  throws: `Match`, `MatchAny` and `Resend` carry the exact condition.
- The values of a received filter may wrap around 64 bits and so not be sorted, which the matching loop relies on;
  `WrappedMissed` gives such values, and `MatchInternal` states exactly which queries are then still found.
- `AddCoin` subtracts the memory of the coin already there before it throws, so the accounting is off afterwards.

## Model

| member | source | states |
|---|---|---|
| AddrManRuns.EveryRunFromEmpty | src/addrman.cpp:92-661 | every run of Add, Good, Attempt, Connected, SetServices, GetAddr, ResolveCollisions, Select-collision and Clear calls from an empty manager ends in a state satisfying the whole invariant, if Clear is called only while no collision is pending |
| AddrManRuns.RunKeepsInvariant | src/addrman.cpp:211-661 | the same from any sound state: each call of a run keeps links, counters, reference counts, seats and pending collisions |
| AddrManRuns.StepKeeps | src/addrman.cpp:211-661 | one call with a positive time keeps the invariant |
| AddrManRuns.ResolveOneKeeps | src/addrman.cpp:577-634 | settling one pending collision keeps the invariant and removes at most that collision |
| AddrManRuns.HolderKnown | src/addrman.cpp:594-605 | the holder of an occupied tried slot is a known tried entry |
| AddrManRuns.SelectTriedCollision | src/addrman.cpp:636-661 | the entry offered for testing is tried and shares its slot with the pending one; nothing is offered only if the pending entry is gone |
| AddrManRuns.ResolveAll | src/addrman.cpp:577-634 | settling all pending collisions keeps the invariant and adds none |
| AddrManRuns.ClearedInv | src/addrman.h:561-582 | a cleared manager satisfies the invariant if and only if no collision is pending |
| AddrManOperations.GoodKeeps | src/addrman.cpp:211-279 | marking an address good keeps the invariant, in each of its branches |
| AddrManOperations.MakeTriedKeeps | src/addrman.cpp:163-209 | moving an entry to the tried table, evicting a holder back to the new table, keeps links, counters, seats and reference counts |
| AddrManOperations.AddKeeps | src/addrman.cpp:281-352 | adding an address keeps the invariant, including when the new entry finds no slot and is deleted again |
| AddrManEffects.GoodHasEffect | src/addrman.cpp:211-279 | the effect of Good for every sound state, stated by slots and fields and not by its steps |
| AddrManEffects.GoodSpares | src/addrman.cpp:39-57 | an entry marked good is terrible afterwards if and only if a minute has passed and its time is unset, over ten minutes ahead or over thirty days back |
| AddrManEffects.FailuresCondemn | src/addrman.cpp:50-56 | an entry with a recent time, not tried within a minute, is terrible if and only if it has three failures and no success, or ten and the success is over a week old |
| AddrManEffects.MakeTriedSeizes | src/addrman.cpp:163-209 | afterwards the entry holds its tried slot and no new slot; a former holder sits in its own new slot with one reference, and whoever sat there lost one; every other slot and entry is as before |
| AddrManEffects.AddHasEffect | src/addrman.cpp:281-352 | the effect of Add for every sound state, stated by slots and fields |
| AddrManEffects.PlaceEnters | src/addrman.cpp:330-351 | the entry enters its slot exactly if that is empty, or the holder is terrible, or has several references and the entry none; else a new entry disappears; all else untouched |
| AddrManEffects.SoleHolderStays | src/addrman.cpp:331-351 | no Add call ever moves a holder that is not terrible and has no other reference out of its slot |
| AddrManEffects.ResolveHasEffect | src/addrman.cpp:577-634 | settling a pending collision: entry gone or invalid, or holder successful within four hours: dropped; slot free, or holder tried more than a minute ago and that within four hours or with the entry waiting over forty minutes: the entry is marked good; else kept |
| AddrManEffects.StatisticsHaveEffect | src/addrman.cpp:354-374 | the three statistics calls change only the entry whose address matches exactly, in the fields named |
| AddrManEffects.AnswerSize | src/addrman.cpp:501-520 | how many entries are handed out |
| AddrManSpread.TriedSpread | src/addrman.h:113-115 | addresses of one range fall into at most 8 tried buckets |
| AddrManSpread.NewSpread | src/addrman.h:106-108 | whatever sources of one range announce falls into at most 64 new buckets |
| AddrManSpread.GroupShare | src/addrman.h:100-115 | in every sound state at most 512 tried entries come from one range, whatever the hashes |
| AddrManOperations.RefCountBounds | src/addrman.cpp:313-315 | every reference count is between 0 and 8, and at least 1 exactly for entries that are not tried |
| AddrManOperations.GetAddrLists | src/addrman.cpp:501-520 | the entries handed out are distinct, not terrible and within the limit; below the limit they are all the entries that are not terrible |
| AddrManOperations.ShuffleKeeps | src/addrman.cpp:506-512 | the swaps made while drawing keep the invariant |
| AddrManOperations.WithdrawKeeps | src/addrman.cpp:163-177 | removing an entry from every new bucket leaves exactly it without references |
| AddrManOperations.DemoteKeeps | src/addrman.cpp:192-203 | putting an evicted entry into its home slot keeps the invariant |
| AddrManInvariant.DeleteKeeps | src/addrman.cpp:129-146 | deleting an unreferenced entry keeps all links and tables |
| AddrManInvariant.SwapKeeps | src/addrman.cpp:109-127 | swapping two random positions keeps everything |
| AddrManInvariant.ClearNewKeeps | src/addrman.cpp:148-161 | clearing a new slot drops one reference and deletes an entry that loses its last one |
| AddrManInvariant.SlotChangeKeeps | src/addrman.cpp:148-161 | writing one new-table slot changes reference counts by exactly that slot |
| AddrManObject.CAddrMan.constructor | src/addrman.h:584-588 | a new manager is empty and sound |
| AddrManObject.CAddrMan.Clear | src/addrman.h:561-582 | the loops reset every table and counter, but not the pending collisions |
| AddrManObject.CAddrMan.Find | src/addrman.cpp:74-90 | the entry indexed under the normalised address, if any |
| AddrManObject.CAddrMan.Create | src/addrman.cpp:92-107 | a new entry under a new id in all three indexes |
| AddrManObject.CAddrMan.SwapRandom | src/addrman.cpp:109-127 | exchanges two random positions; its asserts hold |
| AddrManObject.CAddrMan.Delete | src/addrman.cpp:129-146 | removes an entry; its asserts hold |
| AddrManObject.CAddrMan.ClearNew | src/addrman.cpp:148-161 | clears a slot as the state function says; the reference-count assert holds |
| AddrManObject.CAddrMan.MakeTried | src/addrman.cpp:163-209 | the scanning loop and the eviction equal the closed-form operation; all asserts hold |
| AddrManObject.CAddrMan.FindBucket | src/addrman.cpp:240-255 | the scan from a random bucket finds a slot of the entry, so the "no bucket found" branch is unreachable |
| AddrManObject.CAddrMan.Good | src/addrman.cpp:211-279 | keeps the invariant; an address without its exact entry changes only the time of the last success; an entry gets its statistics refreshed, and then: already tried, nothing more; its tried slot taken and to be tested first, it becomes pending while there is room; else it takes its tried slot and the holder goes back to its new slot |
| AddrManObject.CAddrMan.Add | src/addrman.cpp:281-352 | keeps the invariant; an unroutable address changes nothing; an unknown one gets an entry exactly if its slot is empty or its holder terrible or referenced elsewhere; a known one is refreshed and gains a reference exactly under the time, count and draw conditions; all other entries are untouched; the result says whether a routable address was unknown |
| AddrManObject.CAddrMan.PlaceNew | src/addrman.cpp:330-351 | equals the placement whose effect PlaceEnters states |
| AddrManObject.CAddrMan.Attempt | src/addrman.cpp:354-374 | changes exactly the attempt statistics of an exactly matching entry, counting a failure only once per last success |
| AddrManObject.CAddrMan.Connected | src/addrman.cpp:522-540 | changes exactly the time of an exactly matching entry, once 20 minutes have passed |
| AddrManObject.CAddrMan.SetServices | src/addrman.cpp:542-558 | changes exactly the services of an exactly matching entry |
| AddrManObject.CAddrMan.GetAddr | src/addrman.cpp:501-520 | the drawing loop hands out exactly min(23 percent of the entries, 2500, the entries that are not terrible) of them |
| AddrManObject.CAddrMan.ResolveCollisions | src/addrman.cpp:577-634 | the loop over the pending set settles each of them |
| AddrManObject.CAddrMan.ResolveCollision | src/addrman.cpp:579-632 | one pending collision: replaced, kept or dropped, with the exact conditions on the holder and the whole effect of each |
| AddrManObject.CAddrMan.SelectTriedCollision | src/addrman.cpp:636-661 | picks a pending collision and reports the holder of its slot |
| AddrManCheck.Check | src/addrman.cpp:424-498 | returns 0 exactly for the states satisfying the condition said without loops |
| AddrManCheck.InvariantPasses | src/addrman.cpp:424-498 | a sound state passes Check exactly if it has a key and its addresses are found in the index as they are |
| AddrManPorts.CheckFails | src/addrman.cpp:448-449 | without port discrimination two Add calls on a new manager lead to a sound state for which Check reports an error |
| AddrManCheck.CheckEntries | src/addrman.cpp:432-456 | collects the tried ids and the reference counts while testing every entry |
| AddrManCheck.CheckTried | src/addrman.cpp:463-475 | accepts exactly the tried tables whose entries sit in their own slots; what remains is what is not seated |
| AddrManCheck.CheckNew | src/addrman.cpp:477-488 | accepts exactly the new tables whose slots match the reference counts |
| AddrManStream.Serialize | src/addrman.h:337-394 | writes exactly the image of the manager; both count asserts hold |
| AddrManStream.WriteNew | src/addrman.h:353-363 | the referenced entries, numbered in id order |
| AddrManStream.WriteTried | src/addrman.h:364-372 | the tried entries, in id order |
| AddrManStream.WriteBucket | src/addrman.h:373-386 | a bucket's occupants by their numbers |
| AddrManRestored.ImageFrame | src/addrman.h:345-352 | an image starts with format 3, key size 32, the key, the two counts and 1024 with bit 30 set, and ends with the digest of the AS map |
| AddrManRestored.ImageEntry | src/addrman.h:353-372 | then the entries: the new ones before the tried ones, each group by id |
| AddrManReader.Unserialize | src/addrman.h:397-559 | reading an image back with the same asmap succeeds, loses nothing and yields the restored state |
| AddrManReader.SaveAndLoad | src/addrman.h:337-559 | saving any sound manager and loading it yields the same manager up to ids; the result is sound exactly when index keys are raw addresses |
| AddrManReader.RestoredSame | src/addrman.h:337-559 | entries, statistics, reference counts, bucket and slot contents agree up to a bijective renaming of ids |
| AddrManRestored.RestoredInvariant | src/addrman.h:450-479 | the restored state satisfies the invariant if and only if index keys are raw addresses |
| AddrManPorts.LoadingFails | src/addrman.h:450-479 | without port discrimination one Add call on a new manager leads to a sound state whose saved and loaded form has the entry but cannot find it |
| AddrManRestored.RenamedBijection | src/addrman.h:353-372 | the renaming is a bijection between old ids and numbers |
| CoinsCache.FetchedKeeps | src/coins.cpp:42-57 | caching a coin found below keeps the cache sound and shows the same coins |
| CoinsCache.AddedKeeps | src/coins.cpp:68-100 | adding a coin keeps the cache sound if and only if it may overwrite, or an entry is cached, or the parent has none; the view gains exactly that coin |
| CoinsCache.SpentKeeps | src/coins.cpp:113-127 | spending removes exactly that coin and keeps the cache sound |
| CoinsCache.UncachedKeeps | src/coins.cpp:223-230 | dropping an unmodified entry changes nothing visible |
| CoinsCache.MergedSound | src/coins.cpp:160-214 | merging one child entry keeps the parent sound over its own base, and never meets a misapplied FRESH flag |
| CoinsCache.MergedShown | src/coins.cpp:160-214 | merging one child entry makes the parent show it |
| CoinsModel.WriteBackIsOverlay | src/coins.cpp:160-214 | writing only dirty entries gives what overlaying all of a sound cache gives |
| CoinsCache.View.GetCoin | src/coins.cpp:59-66 | finds exactly the coins shown; filling the caches on the way changes no layer |
| CoinsCache.View.FetchCoin | src/coins.cpp:42-57 | the cache becomes the fetched cache, usage accounting stays exact |
| CoinsCache.View.AddCoin | src/coins.cpp:68-100 | the three outcomes and the coin shown afterwards; the view stays sound if and only if nothing was stored, or it may overwrite, or an entry was cached, or the parent shows none; usage exact unless it throws, when it is too low by the coin already there |
| CoinsCache.View.SpendCoin | src/coins.cpp:113-127 | the coin disappears from the view, its value is handed out, usage exact |
| CoinsCache.View.Uncache | src/coins.cpp:223-230 | the view is unchanged, usage exact |
| CoinsCache.View.BatchWrite | src/coins.cpp:160-214 | the view afterwards shows what the child showed and stays sound; the misapplied-FRESH throw is unreachable |
| CoinsCache.View.Flush | src/coins.cpp:216-221 | the parent shows exactly what this view showed, which still shows it, empty |
| CoinsStack.PerformFlush | src/coins.cpp:216-221 | a flush moves the top map onto the next one and leaves the others |
| CoinsStack.Run | src/coins.cpp:42-230 | for any stack and any calls, the coins shown by every layer are those of plain maps updated by the same adds, spends and flushes, and the memory accounting of every cache stays exact |
| CheckQueue.NextKeeps | src/checkqueue.h:68-187 | every step of every interleaving keeps: nTodo is queued plus in-flight checks, counters match the threads, a failure recorded is one of this session |
| CheckQueue.InitialInv | src/checkqueue.h:141-157 | the invariant holds at the start for any number of workers |
| CheckQueue.WaitIsRight | src/checkqueue.h:160-164 | in every run, when Wait returns: true exactly if all checks that the AddChecks calls of the run added since the last return pass; no worker holds a batch; nothing leaks into the next session |
| CheckQueue.AddedIsSession | src/checkqueue.h:167-187 | the checks a state counts as added are those of the AddChecks calls since the last return, for every run |
| CheckQueue.ReturnsIs | src/checkqueue.h:90-103 | a step returns from Wait exactly if it takes the master out |
| CheckQueue.BatchShare | src/checkqueue.h:107-112 | a batch is the whole share of the queue per thread and idle thread, rounded down, within 1 and nBatchSize |
| CheckQueue.NotifyWakes | src/checkqueue.h:167-187 | one added check wakes one sleeping worker, more wake all |
| CheckQueue.VerdictStable | src/checkqueue.h:90-103 | only a return of Wait delivers a verdict |
| CheckQueue.NeverStuck | src/checkqueue.h:77-121 | while Wait is on, some thread can go on; if the master sleeps un-notified the queue is empty and a worker holds a non-empty batch |
| CheckQueue.LockDecreases | src/checkqueue.h:79-121 | every locking step uses up work |
| CheckQueue.WaitEnds | src/checkqueue.h:79-121 | a wait takes boundedly many steps, apart from spurious wake-ups |
| CheckQueue.PopBatch | src/checkqueue.h:112-119 | takes a non-empty batch no larger than the queue, from its back |
| CheckQueue.FinishBatch | src/checkqueue.h:79-88 | what reporting a batch does to the shared fields |
| CheckQueue.NextBatch | src/checkqueue.h:90-119 | the inner loop: return, sleep or take work, as in the state machine |
| CheckQueue.LoopRound | src/checkqueue.h:75-128 | one round of the loop is one step of the state machine |
| CheckQueue.RunChecks | src/checkqueue.h:121-127 | checks are evaluated until one fails; the result is the conjunction |
| CuckooCache.Cache.constructor | src/cuckoocache.h:338-352 | an empty table with its epoch size, the epoch limit met |
| CuckooCache.Cache.EpochCheck | src/cuckoocache.h:287-321 | ages the table if and only if the counter has run out and the different recent elements are at least an epoch; else leaves it, and sets the counter so far that no epoch can be full before; afterwards one more insertion fits the limit |
| CuckooCache.RecentCount | src/cuckoocache.h:295-303 | the slots counted are as many as the different live elements of the current epoch |
| CuckooCache.PlacesAre | src/cuckoocache.h:241-251 | place i is the i-th hash scaled to the table size, rounded down |
| CuckooCache.NextPlaceMoves | src/cuckoocache.h:415-425 | the displaced place is never the one just filled |
| CuckooCache.Cache.Insert | src/cuckoocache.h:391-440 | after the epoch check the live elements are those before plus the new one, minus at most one, and minus none unless all places of the new one are taken; an element already there is only revived; no two live elements are equal |
| CuckooCache.Cache.Displace | src/cuckoocache.h:406-439 | the displacement loop conserves live elements and the one in hand |
| CuckooCache.Cache.Contains | src/cuckoocache.h:468-478 | true exactly if the element is in one of its places; erasing marks only the first of them that holds it |
| CuckooCache.LivePresent | src/cuckoocache.h:468-478 | every live element is found |
| CuckooCache.Exchange | src/cuckoocache.h:425-436 | swapping the element in hand with the one in the table conserves the multiset |
| CuckooRuns.Run | src/cuckoocache.h:287-478 | any calls on a new cache: each one does its step and answers right; the current epoch never exceeds epoch_size + max(1, epoch_size/16); what is live is found, was inserted and not erased since; of the elements inserted within the last epoch_size + 1 insertions exactly those are missing that an insertion lost |
| CuckooRuns.OnlyWanted | src/cuckoocache.h:391-478 | in every run what is live was inserted, and not erased after its last insertion |
| CuckooRuns.RecentKept | src/cuckoocache.h:287-440 | in every run an element followed by at most epoch_size + 1 insertions and no erasure is live if and only if none of them lost it |
| CuckooRuns.Ages | src/cuckoocache.h:287-321 | an element is recent, or old with an epoch of insertions and counter behind it, or more than an epoch of insertions has passed |
| CuckooRuns.AgesOnlyWhenFull | src/cuckoocache.h:287-321 | an element grows old or dies without being inserted, erased or lost only in an insertion that found an epoch of recent elements |
| CuckooRuns.FewNeverAge | src/cuckoocache.h:287-321 | in every run that inserts fewer different elements than an epoch nothing ages: what was inserted and neither erased nor lost is recent |
| CuckooRuns.LostGone | src/cuckoocache.h:391-440 | the element that an insertion loses is not live afterwards |
| CuckooRuns.EraseGone | src/cuckoocache.h:468-478 | an erased element is not live any more, no copy of it being left |
| CuckooCache.ErasedFound | src/cuckoocache.h:441-478 | an erased element is found as before, until its place is used |
| RollingBloom.Filter.constructor | src/bloom.cpp:289-314 | an empty filter |
| RollingBloom.Filter.Insert | src/bloom.cpp:329-358 | each position holds the number of the generation in which one of the last keys touched it last, and is unset if none did |
| RollingBloom.Filter.Contains | src/bloom.cpp:366-378 | true exactly if every position of the key was touched by one of the last 2 * nEntriesPerGeneration + nEntriesThisGeneration keys; so each of those keys is found |
| RollingBloom.Filter.Reset | src/bloom.cpp:386-392 | all positions unset, history forgotten |
| RollingBloom.RotateHeld | src/bloom.cpp:331-348 | opening a generation forgets exactly the positions whose number is reused |
| RollingBloom.InsertHeld | src/bloom.cpp:349-357 | inserting a key overwrites exactly its positions |
| RollingBloom.Wipe | src/bloom.cpp:338-346 | the masked loop clears exactly the positions of one generation |
| RollingBloom.Mark | src/bloom.cpp:349-357 | the hash loop writes the generation at exactly the key's positions |
| RollingBloom.FastMod | src/bloom.cpp:325-327 | floor(x * n / 2^32), so in range |
| RollingBloom.SpotIs | src/bloom.cpp:349-357 | the bit is the low six bits of the hash, the word pair the scaled hash |
| ArithUint256.Uint256.ShiftLeft | src/arith_uint256.cpp:21-36 | value * 2^shift mod 2^256 |
| ArithUint256.Uint256.ShiftRight | src/arith_uint256.cpp:38-53 | floor(value / 2^shift) |
| ArithUint256.Uint256.AddAssign | src/arith_uint256.h:132-142 | sum mod 2^256, also when an operand is added to itself |
| ArithUint256.Uint256.Not | src/arith_uint256.h:66-72 | 2^256 - 1 - value |
| ArithUint256.Uint256.Negated | src/arith_uint256.h:74-81 | (2^256 - value) mod 2^256 |
| ArithUint256.Uint256.Increment | src/arith_uint256.h:170-177 | value + 1 mod 2^256 |
| ArithUint256.Uint256.SubAssign | src/arith_uint256.h:144-148 | difference mod 2^256, exact when it does not go below zero |
| ArithUint256.Uint256.ScaleAssign | src/arith_uint256.cpp:55-64 | 32-bit multiple mod 2^256, no intermediate overflow |
| ArithUint256.Uint256.MulAssign | src/arith_uint256.cpp:67-80 | product mod 2^256 |
| ArithUint256.Uint256.AddRow | src/arith_uint256.cpp:71-76 | one row of long multiplication, no 64-bit overflow |
| ArithUint256.Uint256.DivAssign | src/arith_uint256.cpp:83-106 | the integer quotient for every non-zero divisor; a zero divisor is an error that leaves zero |
| ArithUint256.Uint256.DivideStep | src/arith_uint256.cpp:96-103 | keeps quotient * divisor + remainder = dividend and remainder < 2 * shifted divisor |
| ArithUint256.Uint256.CompareTo | src/arith_uint256.cpp:109-118 | the sign of the difference |
| ArithUint256.Uint256.EqualTo | src/arith_uint256.cpp:121-133 | equality with a 64-bit number |
| ArithUint256.Uint256.Bits | src/arith_uint256.cpp:171-183 | position of the highest set bit plus one, or zero |
| ArithUint256.Uint256.GetLow64 | src/arith_uint256.h:242-246 | value mod 2^64 |
| ArithUint256.Uint256.Set | src/arith_uint256.h:85-92 | assignment of a 64-bit number |
| CompactTarget.SetCompact | src/arith_uint256.cpp:203-221 | the expanded value mod 2^256, the sign flag, and the overflow flag exactly when mantissa * 256^(size-3) >= 2^256 |
| CompactTarget.OverflowExact | src/arith_uint256.cpp:217-219 | the flag's three comparisons say exactly "does not fit 256 bits" |
| CompactTarget.GetCompact | src/arith_uint256.cpp:223-244 | the normal compact form of the rounded number: it expands exactly to it with the given sign, bit 23 is clear, no smaller size would do; both asserts hold |
| CompactTarget.CompactNormal | src/arith_uint256.cpp:223-244 | the closed form is normal, for every number |
| CompactTarget.CompactIs | src/arith_uint256.cpp:223-244 | a word is the compact form of a number if and only if it is a normal form of its rounded value |
| CompactTarget.NormalSmallest | src/arith_uint256.cpp:223-244 | no form of the same value has a smaller size byte than a normal one |
| CompactTarget.NormalUnique | src/arith_uint256.cpp:223-244 | a value and sign have at most one normal form |
| CompactTarget.CompactVectors | src/test/arith_uint256_tests.cpp:481-505 | three of the expected values |
| CompactTarget.CompactExpands | src/arith_uint256.cpp:203-244 | re-expanding a compacted number gives it with the fewest low bytes cleared that leave 23 bits, and the given sign |
| CompactTarget.SetGetSet | src/arith_uint256.cpp:203-244 | what came from a compact form survives being compacted and expanded |
| CompactTarget.CompactLoss | src/arith_uint256.cpp:223-244 | the re-expanded value is never above, monotone, and less than one part in 2^15 below |
| CompactTarget.GetBlockProof | src/chain.cpp:122-135 | floor(2^256 / (target + 1)) for positive targets that fit, else 0 |
| BlockTree.SkipBelow | src/chain.cpp:71-82 | 0 <= skip height < height |
| BlockTree.SkipIs | src/chain.cpp:74-82 | from an even height back by its lowest set bit, from an odd one by the two lowest set bits of the height below |
| BlockTree.LowestOneIs | src/chain.cpp:70 | that bit is the power of two of which the number is an odd multiple |
| BlockTree.InvertIs | src/chain.cpp:71 | n & (n - 1) is n without its lowest set bit |
| BlockTree.BlockIndex.GetAncestor | src/chain.cpp:84-109 | terminates, its assert holds, and it returns the ancestor at that height or null |
| BlockTree.BlockIndex.BuildSkip | src/chain.cpp:116-120 | the skip link is the ancestor at the skip height |
| BlockTree.PathIsWalk | src/chain.cpp:84-109 | that ancestor is the block found by walking pprev one step at a time |
| BlockTree.AddToBlockIndex | src/validation.cpp:3524-3537 | linking a block keeps the tree well formed |
| BlockTree.Chain.SetTip | src/chain.cpp:11-21 | every entry is the tip's ancestor, although rewriting stops at the first entry that is right |
| BlockTree.Chain.FindFork | src/chain.cpp:51-60 | the highest ancestor-or-self on the active chain, null if none |
| BlockTree.Chain.GetLocator | src/chain.cpp:23-49 | the ancestors at the locator heights, from the start block |
| BlockTree.LocatorDescends | src/chain.cpp:23-49 | those heights start at the block's, strictly decrease and end at the root |
| BlockTree.LocatorAt | src/chain.cpp:23-49 | the j-th height in closed form: twelve consecutive heights, then doubling steps, not below the root |
| BlockTree.OnChain | src/chain.h:475-477 | looking at one entry decides membership in the chain |
| BlockTree.LastCommonAncestor | src/chain.cpp:156-171 | the highest common ancestor, null exactly when the roots differ; the assert holds |
| BlockTree.Run | src/chain.cpp:11-21 | for any operations: the blocks are those added, each below the parent its operation names; the active chain is the path of the block named by the last SetTip, or empty; entry i is the block reached by walking back from it |
| DbTransaction.Store.Read | src/dbwrapper.h:631-647 | the parent overlaid by writes and deletes, through any nesting |
| DbTransaction.Store.Exists | src/dbwrapper.h:654-664 | presence in that overlay |
| DbTransaction.Store.Write | src/dbwrapper.h:610-623 | the overlay gains the pair, memory usage stays exact |
| DbTransaction.Store.Erase | src/dbwrapper.h:671-680 | the overlay loses the key, memory usage stays exact |
| DbTransaction.Store.Clear | src/dbwrapper.h:682-686 | the parent's view again |
| DbTransaction.Store.Commit | src/dbwrapper.h:688-696 | the target holds the overlay; over another transaction nothing visible changes |
| DbTransaction.Store.WriteBatch | src/dbwrapper.h:342 | the database holds the queued changes |
| DbIterator.Iterator.SeekToFirst | src/dbwrapper.h:422-427 | exactly the overlay's keys remain |
| DbIterator.Iterator.Seek | src/dbwrapper.h:434-439 | exactly the overlay's keys not below the given key remain |
| DbIterator.Iterator.Next | src/dbwrapper.h:445-458 | exactly the least remaining key is passed; the asserts hold |
| DbIterator.Iterator.GetKey | src/dbwrapper.h:487-496 | the least remaining key |
| DbIterator.Iterator.GetValue | src/dbwrapper.h:510-519 | the overlay's value for it |
| DbIterator.Iterator.Valid | src/dbwrapper.h:441-443 | whether any key remains |
| DbIterator.Iterator.SkipDeletedAndOverwritten | src/dbwrapper.h:522-530 | moves the parent past hidden keys and no others |
| DbIterator.Iterator.DecideCur | src/dbwrapper.h:532-544 | chooses the side with the smaller key |
| DbIterator.CurrentKey | src/dbwrapper.h:532-544 | the chosen key is the least of both sides; they never tie |
| DbIterator.ScanAll | src/dbwrapper.h:396-545 | a scan lists the overlay's keys once each in increasing byte order, with their values |
| DbIterator.ScanFrom | src/dbwrapper.h:396-545 | the same from a seek key |
| DbIterator.CommitThrough | src/evo/evodb.h:39-44 | committing the current into the root transaction and that into the database leaves the database equal to what the innermost transaction showed |
| BlockEncodings.Compress | src/blockencodings.cpp:21-31 | first transaction prefilled, the rest as short ids |
| BlockEncodings.PlacePrefilled | src/blockencodings.cpp:61-77 | accepts exactly the well-formed prefilled lists; each transaction lands at its position, all else is empty |
| BlockEncodings.AssignSlots | src/blockencodings.cpp:83-105 | never leaves the block; the i-th id gets the i-th empty slot; fails exactly for a repeated id or a crowded bucket |
| BlockEncodings.MatchPool | src/blockencodings.cpp:107-134 | each slot is in the state of a three-state automaton run over the scanned mempool; the scan stops early only when all slots are held |
| BlockEncodings.MatchExtra | src/blockencodings.cpp:136-165 | the same for extra transactions, where an equal hash is no dispute |
| BlockReconstruction.PartialBlock.InitData | src/blockencodings.cpp:51-170 | the three outcomes with their exact conditions, and the content of every slot |
| BlockReconstruction.PartialBlock.FillBlock | src/blockencodings.cpp:178-220 | empty slots get the received transactions in order; too few or too many is invalid, with the state left behind |
| BlockReconstruction.FilledMatches | src/blockencodings.cpp:107-165 | for any accepted message a filled slot that was not prefilled holds a transaction with that slot's short id |
| BlockReconstruction.Rebuilt | src/blockencodings.cpp:51-170 | with unambiguous short ids every filled slot of a compressed block holds that block's transaction |
| BlockReconstruction.Reconstruct | src/blockencodings.cpp:21-220 | compress, match, request what is missing, fill: the block comes back exactly |
| BlockReconstruction.NothingAtHandRequested | src/blockencodings.cpp:107-165 | with unambiguous ids a slot is filled exactly if its transaction is in the mempool or the extra list |
| BlockReconstruction.PoolClaimIs | src/blockencodings.cpp:107-134 | a slot is free, held or disputed exactly as no, one or several scanned mempool transactions have its short id |
| BlockReconstruction.ExtraClaimIs | src/blockencodings.cpp:136-165 | the same for extra transactions, where only different hashes dispute a slot |
| BlockReconstruction.AmbiguousRequested | src/blockencodings.cpp:107-165 | a slot whose short id two scanned mempool transactions have stays empty, so it is requested |
| BitStream.Writer.Write | src/streams.h:567-582 | appends exactly the low nbits bits; more than 64 is an error |
| BitStream.Writer.Flush | src/streams.h:587-595 | pads with zeros to a whole byte |
| BitStream.Reader.Read | src/streams.h:519-538 | the next bits as a number; fails exactly when too few are left or more than 64 are asked for |
| GolombRice.Encode | src/blockfilter.cpp:27-41 | appends the unary quotient, a zero and the low bits |
| GolombRice.CodedIs | src/blockfilter.cpp:27-41 | quotient ones, a zero, then the remainder in p bits |
| GolombRice.Decode | src/blockfilter.cpp:44-55 | reads the first coded number, or fails exactly when the bits end before it does |
| GolombRice.DecodesCoded | src/blockfilter.cpp:27-55 | every 64-bit number is decoded from its code, and nothing after it is touched |
| GolombRice.MapIntoRangeIs | src/blockfilter.cpp:62-86 | the 32-bit piecewise product equals floor(x * n / 2^64) and is below n |
| BlockFilter.CompactSizeBack | src/serialize.h:308-370 | a written size reads back exactly up to the size limit and is refused above it |
| BlockFilter.CompactSizeBytes | src/serialize.h:308-330 | one, three or five bytes with their markers, low byte first |
| BlockFilter.BuildHashedSet | src/blockfilter.cpp:96-105 | the sorted hashes |
| BlockFilter.SortedOfSorts | src/blockfilter.cpp:103 | a sorted permutation |
| BlockFilter.Build | src/blockfilter.cpp:134-162 | the bytes code the sorted hashes of the elements; 2^32 or more elements are refused |
| BlockFilter.MatchInternal | src/blockfilter.cpp:164-194 | for every filter a constructor made: true exactly when some query equals a coded value that no earlier value exceeds; throws exactly above the size limit |
| BlockFilter.Match | src/blockfilter.cpp:196-200 | the same for one element; for the filter of a set, true exactly when its hash is that of some member, so no member is missed |
| BlockFilter.MatchAny | src/blockfilter.cpp:202-206 | the same for several elements; for the filter of a set, true exactly when the hash of one of them is that of some member |
| BlockFilter.Receive | src/blockfilter.cpp:111-132 | accepts exactly the byte strings that announce a number of values within the limit, code that many and leave less than a byte |
| BlockFilter.Resend | src/blockfilter.cpp:111-162 | a built filter is accepted exactly up to the size limit, and is the same filter |
| BlockFilter.BuiltMade | src/blockfilter.cpp:134-162 | a built filter codes exactly the sorted hashes of its elements |
| BlockFilter.WrappedMissed | src/blockfilter.cpp:176-191 | differences that add up beyond 64 bits give values of which one is not found |
| BlockFilter.HitSorted | src/blockfilter.cpp:164-194 | among sorted values a query hits exactly if it is one of them |
| BaseDigits.MultiplyAdd | src/base58.cpp:58-65 | buffer * factor + digit in place; the carry assert holds |
| BaseDigits.EncoderSize | src/base58.cpp:95-96 | 256^n <= 58^(138n/100 + 1): the encoder's buffer suffices |
| BaseDigits.DecoderSize | src/base58.cpp:49 | 58^n <= 256^(733n/1000 + 1): the decoder's buffer suffices |
| Base58.EncodeBase58 | src/base58.cpp:85-123 | a one per leading zero byte, then the number in base 58 |
| Base58.DecodeBase58 | src/base58.cpp:36-83 | accepts exactly one word of digits between spaces; yields the leading zeros and the number in base 256 |
| Base58.DecodeEncoded | src/base58.cpp:36-123 | decoding an encoded byte string gives it back |
| Base58.EncodeDecoded | src/base58.cpp:36-123 | encoding what a string of digits decodes to gives it back |
| Base58.PlainText | src/base58.cpp:39-72 | without spaces, exactly the strings of digits are decodable |
| Base58.CharsetIs | src/base58.cpp:16 | the digits as characters, as one string |
| Base58.RoundTripBytes | src/base58.cpp:125-136 | encoder then decoder is the identity on all byte strings |
| Base58.RoundTripText | src/base58.cpp:125-136 | decoder then encoder is the identity on the valid strings without spaces, and refuses the others |
| Bech32Remainder.PolyMod | src/bech32.cpp:33-90 | the unique polynomial of degree below six over GF(32) that differs from the input polynomial, with a one in front, by a multiple of the generator |
| Bech32Remainder.FoldDivides | src/bech32.cpp:33-90 | the input polynomial is the coefficients taken out, as quotient, times the generator plus the result |
| Bech32Remainder.RemainderUnique | src/bech32.cpp:41-46 | a polynomial has only one remainder modulo the generator |
| Bech32Remainder.StepGroup | src/bech32.cpp:61-87 | one round multiplies by x, adds the value and subtracts the multiple of the generator by the top coefficient |
| Bech32Remainder.ConstantGroup | src/bech32.cpp:83-87 | the five constants are the multiples of x^6 mod g(x) by the powers of a in GF(32) |
| Bech32Checksum.StepLinear | src/bech32.cpp:74-87 | a round is linear over exclusive or |
| Bech32Checksum.StepInjective | src/bech32.cpp:74-87 | a round never absorbs a difference |
| Bech32Checksum.SixDetected | src/bech32.cpp:33-90 | lists that differ only within six consecutive positions have different remainders |
| Bech32.ExpandHRP | src/bech32.cpp:99-111 | high bits, a zero, low bits |
| Bech32.CreateChecksum | src/bech32.cpp:124-135 | the six groups of the remainder |
| Bech32.VerifyChecksum | src/bech32.cpp:114-121 | whether the remainder modulo the generator is one |
| Bech32.ChecksumVerifies | src/bech32.cpp:114-135 | every created checksum verifies |
| Bech32.ChecksumUnique | src/bech32.cpp:114-135 | no other checksum verifies for the same prefix and values |
| Bech32.BurstDetected | src/bech32.cpp:114-121 | two value lists under one prefix that differ only within six consecutive positions never both verify |
| Bech32.Encode | src/bech32.cpp:143-156 | prefix, separator, values and checksum in the character set |
| Bech32.Decode | src/bech32.cpp:159-190 | accepts exactly the well-formed strings with a valid checksum, and what it returns for them |
| Bech32.DecodeEncoded | src/bech32.cpp:143-190 | decoding an encoded string gives back prefix and values, for lower-case printable non-empty prefixes and total length up to 90 |
| Bech32.RoundTrip | src/bech32.cpp:143-190 | the same for the methods |
| Bech32.CharsetIs | src/bech32.cpp:16 | the values as characters, as one string |
| Bech32Vector.ListedString | src/test/bech32_tests.cpp:14-30 | the shortest valid string of the tests, A12UEL5L, is accepted with prefix a and no values |

## Left out

- `Select_` and `GetChance` of the address manager: a probabilistic, floating-point choice.
- AddrManReader.Unserialize: stated for images the serializer writes, read with the same AS map; other files,
  older formats and re-bucketing after a changed AS map are not modelled.
- The bytes of the address file: the image is a sequence of fields, not their encoding.
- AddrManObject.CAddrMan.constructor: the object keeps its fields in one record that each statement replaces;
  which field a statement writes is visible, aliasing between fields is not possible in either.
- Overflow of the 32-bit entry ids and of the 31-bit step of `GetLocator` at heights above 2^30.
- Best-block hashes in coin caches.
- Stop requests to the check queue, its per-thread interruption points, and memory ordering of atomic flags.
- CuckooCache.Cache.constructor: the depth limit is a parameter of at least 1, as `log2` of at least 2 is; `log2`
  itself is not modelled. An element and its two flags form one slot record.
- RollingBloom.Filter.constructor: the floating-point sizing is not modelled; sizes are parameters, with at least
  one element per generation.
- Hex conversion, decrement, and bitwise operators of 256-bit integers; difficulty adjustment.
- BlockTree.AddToBlockIndex: the map from hashes to blocks, chain work and validity flags are not modelled.
- DbTransaction.Store.Read: values are byte strings; that reading with another type than written throws is not
  modelled, nor is LevelDB itself.
- BlockReconstruction.PartialBlock.InitData: messages of more than 65535 transactions, which deserialization refuses
  (`src/blockencodings.h`, line 117), are not modelled; the counters of prefilled and extra transactions, which are only
  logged, are not modelled.
- BlockReconstruction.PartialBlock.FillBlock: `CheckBlock` is a parameter.
- GolombRice.Encode: coding parameters of 64 and more, for which the shift is undefined, are not modelled.
- GolombRice.Decode: the same.
- Base58Check and key or address types built on the two string formats.
- Networking, validation, wallet, RPC and the cryptographic primitives.
