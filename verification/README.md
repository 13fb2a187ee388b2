# A verified model of the node's state machines and codecs

This project models, in Dafny, the self-contained state machines, caches and codecs of the node and proves
what they are relied on for. `dafny verify dfyconfig.toml` checks all of it. No file assumes anything.

| file | what it models |
|---|---|
| `Coins.dfy` | the stack of write-back caches over the coin database, with DIRTY and FRESH flags |
| `AddrManState.dfy`, `AddrManOps.dfy`, `AddrManRuns.dfy`, `AddrManEffects.dfy`, `AddrMan.dfy`, `AddrManCodec.dfy` | the address manager: its invariant, its operations as functions of a state value, whole runs, when addresses are taken and tried entries replaced, the class that performs all this in place, and its file format |
| `MedianTime.dfy`, `HeadersSync.dfy` | the two-phase headers download with its commitment queue and lookahead buffer, and the median-time rule behind its bound on commitments |
| `CuckooCache.dfy` | the cuckoo cache with lazy garbage flags and epochs |
| `CheckQueue.dfy` | the master/worker check queue, as interleaved atomic steps |
| `CompactBlock.dfy` | compact block relay: short ids, reconstruction, differential indexes |
| `Powers.dfy`, `Limbs.dfy`, `Arith256.dfy`, `CompactTarget.dfy` | 256-bit limb arithmetic, compact targets, the work of a block |
| `Base58.dfy`, `Bech32.dfy` | the two address encodings |
| `Gf1024.dfy`, `Bch.dfy` | the field behind the bech32 checksum, and why the checksum detects three errors |
| `SkipHeights.dfy`, `Chain.dfy` | the block tree with skip pointers and how long walks along them are, and the active chain |
| `GolombRice.dfy`, `BlockFilter.dfy` | Golomb-coded block filters down to the bit stream |
| `Multisets.dfy`, `Sorting.dfy`, `Words.dfy`, `Wrappers.dfy` | what several of the above share: a law of multisets, sorted lists, word sizes, optional values |

Objects whose methods change their fields are classes, and each method is proved against a function of the state
before it; what the system promises is then proved about those functions and about the invariants that every
method keeps. The check queue is about interleavings, so its threads are values and its critical sections are
steps that any thread may take next.

Hashes, salted bits, difficulty rules, block checks, the clock and the random source are arbitrary functions or
inputs. Integers are unbounded except where the width matters, and there the wrap-around is written out: 64-bit
carries and 2^256 in the limb code, chain work modulo 2^256, the 45 per cent epoch size, the padded count of packed
flags, 16-bit slot numbers, 64-bit differential values, the counter of extra transactions, the bound on
commitments, the running sum of a filter.

## Where code and comments differ

- `SpendCoin` also returns true for an outpoint cached as an already spent coin (src/coins.cpp:126-146).
- `Flush` passes an unset best block up as the null hash (src/coins.cpp:235-240).
- Adding a coin as not overwriting leaves the flags sound exactly when the outpoint is cached already or the view
  holds no coin there; `Coins.CoinsViewCache.AddCoin` states this as an equivalence. `Coins.AddThenSpend` runs
  AddCoin and SpendCoin and says exactly when the coin below is back in the view.
- The displacement of the cuckoo cache starts at the second location, not the first, because the search for the
  invalid location ends past the last one (src/cuckoocache.h:427-438); `CuckooCache.Cache.NextLoc` says so.
- The counter of transactions taken from the extra list also goes down when the slot had been filled from the
  memory pool (src/blockencodings.cpp:150-155). It is not the number of slots held by extra transactions exactly when
  an extra candidate that is tried answers to the short id of a slot the pool had filled, with another transaction
  (`CompactBlock.ExtraCountMeaning`); `CompactBlock.ExtraCountWraps` runs into 2^64 - 1.
- Slot numbers are stored in 16 bits (src/blockencodings.cpp:81-85) although messages of more transactions pass the
  checks of `InitData`. Short ids lead to their slots exactly up to 2^16 transactions
  (`CompactBlock.PlacesAreSlotsIff`). With 2^16 prefilled transactions and a short id the search for an empty slot
  does not end (`CompactBlock.EndlessSearch`). Reading a message from the network refuses both sizes
  (src/blockencodings.h:115-122).
- A chain that keeps the rules on block times can need one commitment more than the bound that no such chain is said
  to exceed (src/headerssync.cpp:35-43): the division drops the last, partial period. Whether the bound suffices
  follows, for every start, from the longest chain that keeps the rules, which the block times before the start and
  the clock determine (`MedianTime.LongestIsLongest`, `HeadersSync.BoundHoldsIff`).
  `HeadersSync.HonestIsTaken` and `HeadersSync.OneTooMany` are the two sides, `HeadersSync.SufficesAtFullSpeed` is the
  closed form where six blocks a second are attained, and `HeadersSync.BoundFallsShort` is a start that fails.
- The packed flags promise to work for every 32-bit size (src/cuckoocache.h:53-63); for the seven largest the padded
  count wraps around and no memory is set aside. `CuckooCache.BitPackedFlags.constructor` states the equivalence.
- A parsed filter may hold differences that add up to 2^64 or more; then a query can miss a value that the filter
  holds (src/blockfilter.cpp:116-132). `BlockFilter.GCSFilter.MatchInternal` says which values a query meets,
  `BlockFilter.NoneMissedIff` when these are all, and `BlockFilter.FilterMissesValue` builds a filter and a query that
  fail. It has 63-bit remainders; with the 19 of the basic filter the quotients in unary make such a stream about
  2^45 bits long, which is four terabytes.
- The walk to an ancestor takes at most 110 steps below height 2^18, as the comment on the skip heights says
  (src/chain.cpp:87-89), and one walk takes as many. The number of steps is not logarithmic: it grows with the square
  of the number of binary digits, by the exact amount in `SkipHeights.BoundIsAttained`.
- Base58 strings that stand for no bytes are accepted whatever length is asked for (src/base58.cpp:38-85).
- Decoding undoes bech32 encoding exactly when the string has at most 90 characters and the human-readable part is
  not empty and printable; `Bech32.DecodeEncode` is an equivalence.

## Model

| member | source | states |
|---|---|---|
| `Coins.FetchedEntry` | src/coins.cpp:41-56 | an entry copied from the view below changes nothing that is seen and has sound flags |
| `Coins.AddedEntry` | src/coins.cpp:67-105 | writing a coin shows exactly that coin; sound flags stay sound exactly when the entry itself is sound |
| `Coins.SpentEntry` | src/coins.cpp:126-146 | with sound flags, erasing a fresh entry or marking any other spent removes exactly that outpoint from the view |
| `Coins.TakenOutShows` | src/coins.cpp:126-146 | in any state, a spent outpoint stays visible exactly when its entry was FRESH over a coin below; nothing else changes |
| `Coins.DroppedEntry` | src/coins.cpp:242-255 | forgetting an unmodified entry changes nothing that is seen |
| `Coins.SoundChildNeverMisapplied` | src/coins.cpp:201-208 | the error for a misapplied FRESH flag cannot arise from a cache with sound flags |
| `Coins.WritingKeepsView` | src/coins.cpp:179-233 | after a sound child is written into its sound parent the parent shows what the child showed and is sound again |
| `Coins.StoringKeepsView` | src/coins.cpp:179-233 | writing a sound cache into the bottom view leaves there exactly what the cache showed |
| `Coins.ShortLivedIsNeverWritten` | src/coins.h:117-126 | a coin added where nothing is cached leaves no trace when it is spent, in its own cache, after that was written into the parent, or by a cache on top of the parent |
| `Coins.FreshStaysFresh` | src/coins.cpp:97-98 | a coin added over a FRESH entry, overwriting or not, leaves no trace when it is spent |
| `Coins.SpentFreshIsForgotten` | src/coins.cpp:185-225 | in any state, a modified entry leaves nothing in the parent exactly when it is spent and FRESH, in the parent or, when the parent has none, in the child |
| `Coins.OnlyDirtyIsWritten` | src/coins.cpp:181-184 | in any state, entries that are not DIRTY might be left out of a batch: they write nothing into a cache or the bottom view and raise no error |
| `Coins.MisappliedFreshResurrectsCoin` | src/coins.cpp:77-97 | a coin added and then spent is gone, except exactly when the caller ruled an overwrite out over a coin held only below; then the view is the old one |
| `Coins.PushedDrains` | src/coins.cpp:235-240 | layers above one that is flushed stay empty, the flushed one becomes empty, and flushing an empty layer empties or fills none |
| `Coins.BottomView.GetCoin` | src/coins.h:159-163 | the bottom view answers from its map |
| `Coins.BottomView.BatchWrite` | src/coins.h:177-179 | the bottom view stores dirty coins and drops dirty spent ones |
| `Coins.CoinsViewCache.constructor` | src/coins.cpp:35-35 | an empty cache shows what its base shows, and is sound exactly when its base is |
| `Coins.CoinsViewCache.DrainedShowsBottom` | src/coins.cpp:235-240 | a stack whose layers are all empty shows exactly what is stored at the bottom |
| `Coins.CoinsViewCache.GetCoinBelow` | src/coins.cpp:45-46 | the view below answers with its coin; no view and no entry of this layer changes |
| `Coins.CoinsViewCache.FetchCoin` | src/coins.cpp:41-56 | a fetch caches the coin of the view in every layer below and changes no view; a cached outpoint is found in any state |
| `Coins.CoinsViewCache.GetCoin` | src/coins.cpp:58-65 | returns the coin of the view, through any number of layers |
| `Coins.CoinsViewCache.HaveCoin` | src/coins.cpp:159-162 | true exactly when the view holds an unspent coin |
| `Coins.CoinsViewCache.AccessCoin` | src/coins.cpp:150-157 | the coin of the view, or the empty coin |
| `Coins.CoinsViewCache.HaveCoinInCache` | src/coins.cpp:164-167 | true exactly when this layer itself holds an unspent entry |
| `Coins.CoinsViewCache.AddCoin` | src/coins.cpp:67-105 | in any state: when it throws, the entry it leaves otherwise, that the view gains exactly the coin, and exactly when sound flags stay sound |
| `Coins.CoinsViewCache.SpendCoin` | src/coins.cpp:126-146 | a sound view loses exactly the outpoint, the coin moved out is the one it held, and when the result is true; with other flags exactly when the outpoint stays visible |
| `Coins.CoinsViewCache.WriteEntries` | src/coins.cpp:179-233 | for every order of the entries: throws exactly on a misapplied flag, and otherwise leaves the merged map |
| `Coins.CoinsViewCache.BatchWrite` | src/coins.cpp:179-233 | takes over a child and its best block |
| `Coins.CoinsViewCache.Flush` | src/coins.cpp:235-240 | never throws on a sound stack, empties the layer into the next one or the bottom view, leaves every other layer as it was, and changes no view above it |
| `Coins.CoinsViewCache.Uncache` | src/coins.cpp:242-255 | drops the entry exactly when it is unmodified, touches no other layer, and changes no view |
| `Coins.CoinsViewCache.GetBestBlock` | src/coins.cpp:169-173 | the nearest best block that is set |
| `Coins.CoinsViewCache.SetBestBlock` | src/coins.cpp:175-177 | sets the best block of this layer |
| `Coins.CoinsViewCache.FlushLayer` | src/coins.cpp:235-240 | flushing any layer of the stack empties that layer into the next, leaves the others alone and the top view as it was |
| `Coins.CoinsViewCache.UncacheLayer` | src/coins.cpp:242-255 | forgetting an entry in any layer drops it there if it carries no flag, and leaves the other layers and the top view as they were |
| `Coins.CoinsViewCache.Apply` | src/coins.cpp:41-255 | one read, addition, spend, flush or uncaching answers and changes the view as on a plain map, and a flush or uncaching moves the entries of the layers as it should |
| `Coins.CoinsViewCache.Run` | src/coins.cpp:41-255 | any run of reads, additions, spends, flushes and uncachings on a stack of any depth answers as one plain map does; once every layer has been flushed in turn from the top down, the bottom view is that map |
| `Coins.AddThenSpend` | src/coins.cpp:67-146 | AddCoin and SpendCoin in turn: exactly when the coin held below is back in the view |
| `Coins.AddCoins` | src/coins.cpp:115-124 | stops exactly at the first output that is cached unspent and may not be overwritten; otherwise all outputs enter the view, and the flags stay sound exactly when queried first, for a coinbase, or when no output exists only below |
| `AddrManState.TouchedKeepsInv` | src/addrman.cpp:816-849 | changing times or services of an entry keeps every index consistent |
| `AddrManState.CreatedKeepsInv` | src/addrman.cpp:419-431 | a created entry is indexed everywhere and still owed a reference |
| `AddrManState.SwappedKeepsInv` | src/addrman.cpp:433-455 | swapping two random positions keeps the random order and the entries inverse to each other |
| `AddrManState.DeletedKeepsInv` | src/addrman.cpp:457-471 | deleting an unreferenced entry removes it from every index and keeps the rest consistent |
| `AddrManState.UnreferencedKeepsInv` | src/addrman.cpp:473-489 | taking an entry out of a slot lowers its count with the slots that hold it |
| `AddrManState.ClearedKeepsInv` | src/addrman.cpp:473-489 | freeing a new slot keeps the invariant and every other entry |
| `AddrManState.ReferencedKeepsInv` | src/addrman.cpp:596-612 | entering an entry into a free slot raises its count with the slots that hold it |
| `AddrManOps.UnlistedKeepsInv` | src/addrman.cpp:495-508 | removing an entry from all new slots leaves it owed a place |
| `AddrManOps.EvictedKeepsInv` | src/addrman.cpp:516-524 | evicting a tried entry leaves it owed a place and its slot to be refilled |
| `AddrManOps.PromotedKeepsInv` | src/addrman.cpp:539-543 | entering an entry into its tried slot settles what was owed |
| `AddrManOps.ReadmittedKeepsInv` | src/addrman.cpp:514-537 | taking the occupant of a tried slot back into the new table keeps the invariant and frees exactly that slot |
| `AddrManOps.ReadmittedEffect` | src/addrman.cpp:514-537 | an evicted entry gets exactly the new slot of its own source, with one reference |
| `AddrManOps.MadeTriedKeepsInv` | src/addrman.cpp:491-544 | moving an entry to the tried table keeps the whole invariant |
| `AddrManOps.MadeTriedEffect` | src/addrman.cpp:491-544 | the entry holds its tried slot, an evicted one is back in the new table with one reference, nothing else moves |
| `AddrManOps.PlacedKeepsInv` | src/addrman.cpp:596-619 | placing a reference keeps the invariant, whether or not the slot is granted |
| `AddrManOps.PlacedEffect` | src/addrman.cpp:596-619 | what placing does: one more reference in the hashed slot, or nothing, or a new entry deleted again |
| `AddrManOps.AddedKeepsInv` | src/addrman.cpp:546-621 | adding an address keeps the invariant for every clock and random draw |
| `AddrManOps.AddedEffect` | src/addrman.cpp:546-621 | true exactly when the address gained the new slot its source hashes to |
| `AddrManOps.MarkedGoodKeepsInv` | src/addrman.cpp:623-675 | marking an address good keeps the invariant and never empties a tried slot |
| `AddrManOps.MarkedGoodEffect` | src/addrman.cpp:623-675 | it returns true exactly when a known new address moves, and then that address holds its tried slot; the success is recorded, and a collision exactly when the slot is taken and there is room for one |
| `AddrManOps.ResolvedOneKeepsInv` | src/addrman.cpp:851-912 | resolving one collision keeps the invariant and never empties a tried slot |
| `AddrManOps.ResolvedKeepsInv` | src/addrman.cpp:851-912 | resolving all collisions, in increasing order of id, keeps the invariant and never empties a tried slot |
| `AddrManOps.CollisionSelectedIsTried` | src/addrman.cpp:914-940 | a recorded collision that still exists maps to an occupied tried slot, whose entry is the one selected |
| `AddrManOps.AttemptedKeepsInv` | src/addrman.cpp:689-707 | recording an attempt keeps the invariant |
| `AddrManOps.TimeRefreshedKeepsInv` | src/addrman.cpp:816-833 | recording a connection keeps the invariant |
| `AddrManOps.ServicesSetKeepsInv` | src/addrman.cpp:835-849 | setting services keeps the invariant |
| `AddrManRuns.SampledIsSound` | src/addrman.cpp:778-814 | a sample holds distinct known addresses of the network asked for, none of them stale; a wanted address is missing only when the sample is already as long as asked for; sampling only permutes the random order |
| `AddrManRuns.ConsistentPassesCheck` | src/addrman.cpp:980-1069 | a consistent state passes every consistency check |
| `AddrManRuns.StepKeepsInv` | src/addrman.cpp:1077-1152 | every public call keeps the invariant, and a filled tried slot is never empty again |
| `AddrManRuns.InitialIsConsistent` | src/addrman.cpp:107-123 | the empty manager is consistent |
| `AddrManRuns.RunIsSafe` | src/addrman.cpp:1077-1152 | after any run, with any hashes, draws and positive times, the state is consistent and passes the check |
| `AddrManEffects.TerribleIff` | src/addrman.cpp:67-90 | an entry is not worth keeping exactly when it was not tried within the last minute and its time is out of range, or it failed three times without a success, or ten times without one in a week |
| `AddrManEffects.PlacedIff` | src/addrman.cpp:596-619 | a new slot is granted exactly when it is free, or held by another entry that is not worth keeping or has further slots while the one placed has none |
| `AddrManEffects.AddedIff` | src/addrman.cpp:546-621 | exactly when an address is taken, on its announcement, the state, the clock and the draw alone |
| `AddrManEffects.FreeSlotIsTaken` | src/addrman.cpp:596-612 | an unknown routable address whose slot is free is always taken |
| `AddrManEffects.OnlySlotIsKept` | src/addrman.cpp:602-606 | an entry worth keeping that has one slot never loses it to an added address |
| `AddrManEffects.AddedEntry` | src/addrman.cpp:563-594 | the entry an announcement leaves: its services, its time, brought up exactly where it lags, and the discount for other sources |
| `AddrManEffects.MadeTriedOthers` | src/addrman.cpp:491-544 | moving an entry to the tried table changes no entry but it, the evicted one and the holder of that one's new slot |
| `AddrManEffects.ResolvedOneEffect` | src/addrman.cpp:856-908 | test before evict: the occupant of a contested slot leaves it if and only if it failed the test, and the record stays if and only if the test is still going on |
| `AddrManEffects.ResolvedInOrder` | src/addrman.cpp:851-912 | every record is resolved once, after those with smaller ids and before those with larger ones |
| `AddrManEffects.ResolvedKeepsFresh` | src/addrman.cpp:851-912 | an occupant whose last success is less than four hours old keeps its slot when all collisions are resolved |
| `AddrManEffects.StepKeepsFresh` | src/addrman.cpp:623-912 | no public call but the resolving of collisions replaces a tried entry, and that not within four hours of its last success |
| `AddrManEffects.RunKeepsFresh` | src/addrman.cpp:623-912 | in every run a tried entry that connected keeps its slot for four hours |
| `AddrManEffects.AttemptsCountOnce` | src/addrman.cpp:689-710 | failed attempts count once until some address connects |
| `AddrManEffects.TimeStaysClose` | src/addrman.cpp:816-834 | after a connection the time known of an address is at most twenty minutes behind, and never goes back |
| `AddrManEffects.ServicesAreSet` | src/addrman.cpp:836-849 | setting services changes the services of a known address alone |
| `AddrManEffects.SelectedRecordIsKnown` | src/addrman.cpp:914-940 | selecting a collision drops its record exactly when that names no entry |
| `AddrManEffects.NodesWantedBounds` | src/addrman.cpp:782-789 | a sample is as large as the percentage and the maximum both allow |
| `AddrManEffects.AnyMayBeDrawn` | src/addrman.cpp:796-803 | every entry not yet drawn can be the next one drawn |
| `AddrMan.AnyTakenIff` | src/addrman.cpp:677-687 | a list reports an address taken exactly when one of its addresses was, in the state that those before it left |
| `AddrMan.AddrManager.constructor` | src/addrman.cpp:107-123 | the tables start empty |
| `AddrMan.AddrManager.Find` | src/addrman.cpp:404-417 | finds exactly the known addresses, under their ids |
| `AddrMan.AddrManager.Create` | src/addrman.cpp:419-431 | creates an entry under the next id |
| `AddrMan.AddrManager.SwapRandom` | src/addrman.cpp:433-455 | swaps two random positions in place |
| `AddrMan.AddrManager.Delete` | src/addrman.cpp:457-471 | deletes an unreferenced entry in place |
| `AddrMan.AddrManager.ClearNew` | src/addrman.cpp:473-489 | frees a new slot in place, deleting an entry that loses its last reference |
| `AddrMan.AddrManager.RemoveFromNew` | src/addrman.cpp:495-508 | walking the buckets from the own one until the count is zero removes every reference |
| `AddrMan.AddrManager.Evict` | src/addrman.cpp:514-537 | moves the entry of a tried slot back to the new table |
| `AddrMan.AddrManager.MakeTried` | src/addrman.cpp:491-544 | performs the move to the tried table in place |
| `AddrMan.AddrManager.Place` | src/addrman.cpp:596-619 | performs the placing of a reference in place; `AddrManEffects.PlacedIff` says when it is granted |
| `AddrMan.AddrManager.AddSingle` | src/addrman.cpp:546-621 | adds one address in place |
| `AddrMan.AddrManager.Add` | src/addrman.cpp:677-687 | adds a list of addresses one after the other, and says whether any was taken |
| `AddrMan.AddrManager.Good` | src/addrman.cpp:623-675 | marks an address good in place |
| `AddrMan.AddrManager.MoveToTried` | src/addrman.cpp:651-674 | moves an entry, or records that its tried slot is taken |
| `AddrMan.AddrManager.Attempt` | src/addrman.cpp:689-707 | records an attempt |
| `AddrMan.AddrManager.Connected` | src/addrman.cpp:816-833 | refreshes the time of a connected address |
| `AddrMan.AddrManager.SetServices` | src/addrman.cpp:835-849 | sets the services of an address |
| `AddrMan.AddrManager.ResolveOne` | src/addrman.cpp:856-908 | resolves one recorded collision in place; `AddrManEffects.ResolvedOneEffect` says what becomes of both entries and the record |
| `AddrMan.AddrManager.ResolveCollisions` | src/addrman.cpp:851-912 | resolves every recorded collision in place |
| `AddrMan.AddrManager.SelectTriedCollision` | src/addrman.cpp:914-940 | selects the tried entry that a recorded collision would evict, never an empty slot |
| `AddrMan.AddrManager.GetAddr` | src/addrman.cpp:778-814 | samples addresses while shuffling the random order in place |
| `AddrMan.AddrManager.CheckAddrman` | src/addrman.cpp:980-1069 | the code is zero exactly when all the stated conditions hold |
| `AddrManCodec.FlipBit30Twice` | src/addrman.cpp:184-186 | the marking of the bucket count undoes itself |
| `AddrManCodec.Serialize` | src/addrman.cpp:131-226 | writes the new entries, the tried entries and, bucket by bucket, the indexes of the entries in it |
| `AddrManCodec.WriteNew` | src/addrman.cpp:187-198 | writes exactly the referenced entries, remembers the index of each, and the internal assertion holds |
| `AddrManCodec.WriteTried` | src/addrman.cpp:199-207 | writes exactly the tried entries, and the internal assertion holds |
| `AddrManCodec.WriteBuckets` | src/addrman.cpp:208-222 | lists for each bucket the entries its slots hold |
| `AddrManCodec.ReadNew` | src/addrman.cpp:290-298 | the new entries come back under the ids they are stored in |
| `AddrManCodec.ReadTriedOne` | src/addrman.cpp:302-319 | a tried entry is kept exactly when it is valid and its slot is free |
| `AddrManCodec.KeptIsFirst` | src/addrman.cpp:302-319 | whatever the stream, a tried record is kept exactly when it is valid and no valid record before it has the same slot |
| `AddrManCodec.ReadTried` | src/addrman.cpp:300-321 | the tried table holds, slot by slot, the kept records, and the others are counted as lost; those of a genuine stream all come back in their slots |
| `AddrManCodec.CollectPairs` | src/addrman.cpp:323-339 | collects, bucket by bucket, exactly the bucket and index pairs that are in range |
| `AddrManCodec.PlacePair` | src/addrman.cpp:356-385 | one stored reference gets the slot it had if the bucketing is unchanged and that slot is free, otherwise the slot of its own source if free, otherwise none; invalid addresses and full counts get none |
| `AddrManCodec.FillNew` | src/addrman.cpp:356-385 | the references of any stream are placed one after the other; those of a genuine stream all come back, each entry as often as before |
| `AddrManCodec.Prune` | src/addrman.cpp:387-397 | in any order, removes exactly the entries without a reference, and leaves a state without such entries alone |
| `AddrManCodec.LoadEntries` | src/addrman.cpp:289-397 | from any stream: the tried table holds the first valid record for each slot, the new table what the references were given, and the entries are exactly those in one of the two |
| `AddrManCodec.CheckedIsConsistent` | src/addrman.cpp:398-402 | what passes the final check after loading is consistent |
| `AddrManCodec.RestoredPassesCheck` | src/addrman.cpp:398-402 | a restored state passes the final check |
| `AddrManCodec.TablesBoundCounts` | src/addrman.cpp:272-287 | the stored counts are within the bounds that reading enforces |
| `AddrManCodec.Unserialize` | src/addrman.cpp:230-402 | a readable stream loads exactly what it gives slots to and is accepted exactly when that passes the self-check, which makes it consistent; any other is refused; a stream written by a consistent state with the same checksum is accepted and restores it |
| `AddrManCodec.RoundTrip` | src/addrman.cpp:131-402 | storing and loading restores the same new and tried tables, counts and entries up to renaming of ids |
| `HeadersSync.CommitmentsInOrder` | src/headerssync.cpp:195-206 | the queue holds one bit per committed height, in the order of the heights |
| `HeadersSync.CommitmentsGrow` | src/headerssync.cpp:195-206 | a header adds its bit at the end of the queue exactly at a committed height |
| `HeadersSync.CommittedOften` | src/headerssync.cpp:14-19 | any run of heights has one committed height per period |
| `HeadersSync.CommittedExactly` | src/headerssync.cpp:195-206 | the exact number of committed heights in a run of heights |
| `MedianTime.MedianAbove` | src/chain.h:296-308 | the median time past lies above a time exactly when the larger half of the last eleven times does |
| `MedianTime.MedianGrows` | src/validation.cpp:3496-3498 | a block that keeps the rule never moves the median back |
| `MedianTime.MedianMoves` | src/headerssync.cpp:35-37 | six blocks that keep the rule move the median by a second or more |
| `MedianTime.SixPerSecond` | src/headerssync.cpp:35-42 | every chain that keeps the rules on block times has at most six blocks for each second from the median time past to the latest time allowed |
| `MedianTime.FullSpeedKeeps` | src/headerssync.cpp:35-42 | after eleven blocks none of which is later than their median, a chain of six blocks for each second keeps the rules to the end |
| `MedianTime.MedianPointwise` | src/chain.h:296-308 | block times that are nowhere later have a median that is not later |
| `MedianTime.EarliestIsEarliest` | src/validation.cpp:3496-3498 | from any start, the chain whose blocks are each one second after the median is nowhere later than any chain that keeps the rules |
| `MedianTime.EarliestKeeps` | src/headerssync.cpp:35-42 | where some chain of a length keeps the rules, the earliest one of that length does |
| `MedianTime.LongestIsLongest` | src/headerssync.cpp:35-42 | from any start, no chain that keeps the rules is longer than the earliest one that still keeps them |
| `MedianTime.FullSpeedIsLongest` | src/headerssync.cpp:35-42 | after eleven blocks none of which is later than their median, that length is six for each second |
| `HeadersSync.HonestFits` | src/headerssync.cpp:35-43 | a chain that keeps the rules needs at most one commitment above the bound of a new sync |
| `HeadersSync.HonestIsTaken` | src/headerssync.cpp:177-213 | where the bound suffices for the longest chain that keeps the rules, the first phase takes every chain that keeps the rules on time and difficulty |
| `HeadersSync.OneTooMany` | src/headerssync.cpp:197-202 | for every other start and bound there is a linked chain of constant difficulty that keeps the rules and is refused, for its commitments exceed the bound |
| `HeadersSync.BoundHoldsIff` | src/headerssync.cpp:35-43 | for every start and bound: no chain that keeps the rules exceeds the bound, if and only if the committed heights of the longest one do not |
| `HeadersSync.SufficesAtFullSpeed` | src/headerssync.cpp:35-43 | after eleven blocks none of which is later than their median, the bound of a new sync suffices exactly when no committed height falls into the last, partial period |
| `HeadersSync.BoundFallsShort` | src/headerssync.cpp:35-43 | a start and a clock for which the bound of 73 commitments does not suffice |
| `HeadersSync.PresyncTakesIff` | src/headerssync.cpp:177-213 | the first phase takes exactly the chains whose difficulty changes are permitted and whose commitments there is room for |
| `HeadersSync.WorkIsSum` | src/headerssync.cpp:208-208 | chain work is the work of the start and of all headers, modulo 2^256 |
| `HeadersSync.ReachedIff` | src/headerssync.cpp:246-250 | the work is reached exactly when it is at some header of the sequence |
| `HeadersSync.TakenIsLinked` | src/headerssync.cpp:222-227 | the redownloaded headers form a hash chain from the start block |
| `HeadersSync.TakenAgrees` | src/headerssync.cpp:256-270 | before the work is reached every header at a committed height has the bit stored for that height |
| `HeadersSync.RedownloadTakesIff` | src/headerssync.cpp:215-278 | the second phase takes exactly the hash chains whose difficulty changes are permitted and which agree with the commitments until the work is reached |
| `HeadersSync.BufferedIsBacked` | src/headerssync.cpp:287-288 | a header under a full buffer has at least 23 checked commitments above it |
| `HeadersSync.ReplayIsTaken` | src/headerssync.cpp:215-278 | whatever the first phase took, the second takes again |
| `HeadersSync.BufferPops` | src/headerssync.h:21-52 | what leaves the buffer is, field for field, the header that came in |
| `HeadersSync.QueueFront` | src/headerssync.cpp:256-270 | the front of the queue is the commitment at the next committed height, if one was stored |
| `HeadersSync.HeadersSyncState.constructor` | src/headerssync.cpp:25-46 | a fresh sync is valid, with the bound on commitments computed from the clock and the median time past |
| `HeadersSync.HeadersSyncState.Finalize` | src/headerssync.cpp:51-63 | clears the working state and keeps what was proved of the headers |
| `HeadersSync.HeadersSyncState.ValidateAndProcessSingleHeader` | src/headerssync.cpp:177-213 | takes a header exactly when the difficulty may change so and there is room for its commitment |
| `HeadersSync.HeadersSyncState.ValidateAndStoreHeadersCommitments` | src/headerssync.cpp:139-175 | takes a message exactly when it connects and all its headers are taken; the phase changes exactly when the work suffices |
| `HeadersSync.HeadersSyncState.ValidateAndStoreRedownloadedHeader` | src/headerssync.cpp:215-278 | takes a header exactly when it connects to the true previous header, may follow it, and agrees with its commitment unless the work is reached |
| `HeadersSync.HeadersSyncState.PopHeadersReadyForAcceptance` | src/headerssync.cpp:280-294 | hands out the next headers in order: all once the work is reached, otherwise all but a full buffer |
| `HeadersSync.HeadersSyncState.StoreRedownloadedHeaders` | src/headerssync.cpp:103-112 | takes a whole message or fails |
| `HeadersSync.HeadersSyncState.ProcessNextHeaders` | src/headerssync.cpp:68-137 | success, the next request, the phase and what is handed out are determined by the two header sequences |
| `HeadersSync.ReleasedEarlyIsBacked` | src/headerssync.cpp:246-294 | in every run each header handed out before the work was reached had at least 23 checked commitments above it |
| `HeadersSync.ReleasedIsLinked` | src/headerssync.cpp:280-294 | in every run the headers handed out form a hash chain from the start block |
| `HeadersSync.ReleasedIsPermitted` | src/headerssync.cpp:237-241 | in every run the difficulty of the headers handed out changed only as permitted |
| `HeadersSync.ContinuousKeepsLinked` | src/headerssync.h:148-155 | continuous messages keep the first phase linked |
| `HeadersSync.Serve` | src/headerssync.cpp:79-97 | the first phase served by full continuous messages ends with the headers served, linked, and the work reached, exactly when they reach it; no message of a linked chain that the phase allows fails |
| `HeadersSync.Replay` | src/headerssync.cpp:98-136 | a peer that repeats its headers in messages cut anywhere never fails, and everything through the message that reaches the work is handed out |
| `CuckooCache.FastRange32` | src/util/fastrange.h:19-22 | the result is the exact quotient, and in range |
| `CuckooCache.BitPackedFlags.constructor` | src/cuckoocache.h:64-71 | there is room for every flag, and every flag starts set, exactly when the padded count fits in 32 bits |
| `CuckooCache.BitPackedFlags.BitSet` | src/cuckoocache.h:94-97 | sets one flag and changes no other |
| `CuckooCache.BitPackedFlags.BitUnset` | src/cuckoocache.h:105-108 | clears one flag and changes no other |
| `CuckooCache.LiveHolders` | src/cuckoocache.h:260-276 | the live elements are those some live slot holds |
| `CuckooCache.AgedEpochs` | src/cuckoocache.h:303-309 | a new epoch has no current element, exactly the former current ones as old, and the old ones gone |
| `CuckooCache.CheckedIsBounded` | src/cuckoocache.h:287-319 | after the check there is room for one more current element, though scans are skipped |
| `CuckooCache.CheckedExactly` | src/cuckoocache.h:287-319 | an epoch ends only at a scan that finds an epoch's worth of current elements, and then exactly the live elements of the one before go; otherwise no slot changes |
| `CuckooCache.ScansAreRare` | src/cuckoocache.h:311-318 | the next scan is put off until the epoch can be full, and by a sixteenth of an epoch at least |
| `CuckooCache.Outlasts` | src/cuckoocache.h:280-319 | in every run a current element stays live through as many insertions as an epoch has elements, unless a displacement drops it |
| `CuckooCache.LiveIsBounded` | src/cuckoocache.h:287-351 | current elements never exceed the epoch size and a sixteenth, live ones never twice that |
| `CuckooCache.EpochShare` | src/cuckoocache.h:346-348 | an epoch is 45 per cent of the slots, rounded down |
| `CuckooCache.EpochsFit` | src/cuckoocache.h:346-348 | two epochs never exceed the table |
| `CuckooCache.PutKeepsSound` | src/cuckoocache.h:414-447 | putting an absent element into one of its locations keeps placement and uniqueness, and frees what it pushes out |
| `CuckooCache.Hashing.Locs` | src/cuckoocache.h:241-251 | eight locations, all in the table |
| `CuckooCache.Cache.constructor` | src/cuckoocache.h:338-351 | nothing is live in a new cache, and it is valid exactly when its flags have room |
| `CuckooCache.Cache.AllowErase` | src/cuckoocache.h:264-267 | marks one slot as collectable |
| `CuckooCache.Cache.EpochCheck` | src/cuckoocache.h:287-319 | the counter and the scan together do what the check is specified to do, which `CuckooCache.CheckedExactly` spells out on the table |
| `CuckooCache.Cache.CountUnused` | src/cuckoocache.h:295-298 | counts the live elements of the current epoch |
| `CuckooCache.Cache.Age` | src/cuckoocache.h:304-308 | ages every slot in place |
| `CuckooCache.Cache.Insert` | src/cuckoocache.h:400-448 | live elements after the check are kept, each in its epoch, and the new one is current, less at most one; refreshed exactly if a location held it, dropped only along a path as long as the limit on which no location could be reused |
| `CuckooCache.Cache.Place` | src/cuckoocache.h:405-413 | an element already in one of its locations is kept and made current |
| `CuckooCache.Cache.Displace` | src/cuckoocache.h:414-448 | exactly the path taken: each location follows the last one, none of the eight of the element in hand can be reused on the way, and the end takes the first that can or drops what is in hand |
| `CuckooCache.Cache.NextLoc` | src/cuckoocache.h:438-438 | the next location after the last one, cyclically; the second when that one is not among them |
| `CuckooCache.Cache.Contains` | src/cuckoocache.h:477-487 | found exactly if some slot holds it, and then it was inserted or is the default element |
| `CheckQueue.BatchFits` | src/checkqueue.h:113-113 | a batch is never empty, never larger than the queue, and within the batch size |
| `CheckQueue.Taken` | src/checkqueue.h:114-120 | a batch has the size asked for |
| `CheckQueue.HandedIn` | src/checkqueue.h:80-85 | handing in a batch keeps the counts, conserves the checks and keeps the flag honest |
| `CheckQueue.ReturnKeepsInv` | src/checkqueue.h:92-99 | Wait returns only when all checks added are finished, with the right verdict |
| `CheckQueue.BlockKeepsInv` | src/checkqueue.h:100-102 | a master blocks only while checks are held by others |
| `CheckQueue.TakeKeepsInv` | src/checkqueue.h:113-122 | taking a batch moves checks from the queue to a thread |
| `CheckQueue.EnterKeepsInv` | src/checkqueue.h:77-123 | a whole critical section keeps the invariant |
| `CheckQueue.AddKeepsInv` | src/checkqueue.h:168-188 | adding checks keeps the invariant |
| `CheckQueue.NotifyKeepsInv` | src/checkqueue.h:183-187 | notifying workers keeps the invariant |
| `CheckQueue.EvaluateKeepsInv` | src/checkqueue.h:125-127 | evaluating one check keeps the invariant |
| `CheckQueue.StepKeepsInv` | src/checkqueue.h:69-188 | every step of every thread keeps the invariant |
| `CheckQueue.Started` | src/checkqueue.h:143-159 | the queue starts in the invariant, with any number of workers and whatever the checks return |
| `CheckQueue.EveryRunIsRight` | src/checkqueue.h:69-188 | for every interleaving of enabled steps from the start: nTodo counts queued and in-flight checks, none is lost, and each Wait returned true exactly when all its checks are true |
| `CheckQueue.BlockedMasterHasHelp` | src/checkqueue.h:91-103 | a blocked master that was not woken waits for a worker that holds a batch |
| `CheckQueue.NoDeadlock` | src/checkqueue.h:69-130 | while the master waits some thread can work |
| `CheckQueue.WorkLessens` | src/checkqueue.h:69-130 | every critical section and every evaluation leaves less work |
| `CheckQueue.WaitIsBounded` | src/checkqueue.h:162-165 | without a new call of the master, the threads can take no more steps than the work there is and twice the spurious wake-ups |
| `CheckQueue.WaitReturns` | src/checkqueue.h:91-103 | wherever the threads cannot work on, the Wait has returned, once, with a verdict on exactly the checks added before it |
| `CheckQueue.WaitCanReturn` | src/checkqueue.h:69-130 | from every state in which the master waits, working on makes it return within the bound |
| `CheckQueue.EveryCheckIsCovered` | src/checkqueue.h:162-189 | over any run every check passed to Add is covered by one verdict or still awaits the next |
| `CheckQueue.CallsComplete` | src/checkqueue.h:162-189 | whenever the master is not waiting it can add checks, notify and wait, and its Wait returns with the verdict on just the checks added since the one before |
| `CheckQueue.NotifyWakes` | src/checkqueue.h:184-188 | adding several checks leaves no worker blocked, adding one wakes one that is |
| `CheckQueue.RunKeepsAwake` | src/checkqueue.h:168-189 | no wake-up is lost: in every run queued checks have a worker that is not blocked |
| `CheckQueue.WorkersDrain` | src/checkqueue.h:69-136 | the workers by themselves can empty the queue, wherever the master stands |
| `CheckQueue.LastWakesMaster` | src/checkqueue.h:80-84 | a worker wakes the master exactly when it hands in the last checks |
| `CheckQueue.BatchShares` | src/checkqueue.h:112-117 | a batch is one check or at most every thread's share of the queue, and no smaller than the share and the batch size allow |
| `CompactBlock.FreeIsFree` | src/blockencodings.cpp:83-85 | the slots left for short ids are exactly the empty ones, in order |
| `CompactBlock.LaidLeaves` | src/blockencodings.cpp:59-74 | whatever the positions, as many slots stay empty as there are short ids |
| `CompactBlock.LaidAt` | src/blockencodings.cpp:59-74 | each prefilled transaction is at its differentially coded position |
| `CompactBlock.TriedEnough` | src/blockencodings.cpp:126-131 | stopping the scan early is harmless |
| `CompactBlock.AssigningDone` | src/blockencodings.cpp:81-103 | a repeated short id shows in the size of the map; otherwise each id has its own slot |
| `CompactBlock.Compacted` | src/blockencodings.cpp:19-29 | a message built from a block lists the first transaction in full and the others by the short ids of their witness hashes, and is a compact form of it |
| `CompactBlock.PartiallyDownloadedBlock.LayPrefilled` | src/blockencodings.cpp:59-75 | accepts exactly well-placed prefilled transactions and puts them there |
| `CompactBlock.PartiallyDownloadedBlock.AssignShortIds` | src/blockencodings.cpp:81-103 | fails exactly on a repeated short id or a crowded bucket; otherwise gives the i-th short id the number of the i-th empty slot, in 16 bits, without leaving the table |
| `CompactBlock.PartiallyDownloadedBlock.TryPool` | src/blockencodings.cpp:105-132 | slots, matches and the count in 64 bits are those of the candidates tried in turn until as many slots as short ids are filled |
| `CompactBlock.PartiallyDownloadedBlock.TryExtra` | src/blockencodings.cpp:134-163 | the same with further candidates, where only another transaction empties a slot; the extra counter is fills minus removals in 64 bits |
| `CompactBlock.PartiallyDownloadedBlock.InitData` | src/blockencodings.cpp:49-168 | for messages of any size for which it returns: exactly when each status is returned, and on success what every slot and the counters are; up to 2^16 transactions each slot holds a match of its short id or is empty for want of exactly one |
| `CompactBlock.PlacesAreSlotsIff` | src/blockencodings.cpp:81-85 | the i-th short id leads to the i-th empty slot if and only if there are at most 2^16 transactions |
| `CompactBlock.EndlessSearch` | src/blockencodings.cpp:81-85 | with 2^16 prefilled transactions and a short id, every slot that a 16-bit offset reaches is filled |
| `CompactBlock.FilledRight` | src/blockencodings.cpp:105-163 | after both lists each slot holds a transaction that answers to its short id, or is empty and not exactly one candidate answers; both counts are those of the filled slots |
| `CompactBlock.PooledIsEmptiedIff` | src/blockencodings.cpp:134-163 | a slot filled from the pool is emptied exactly when an extra candidate that is tried answers to its short id with another transaction |
| `CompactBlock.PooledHoldsIff` | src/blockencodings.cpp:105-132 | after the pool a slot is filled exactly when one candidate of those tried answers to its short id |
| `CompactBlock.ExtendedHoldsIff` | src/blockencodings.cpp:105-163 | after both lists a slot is filled exactly when one pool candidate answers to its short id and no extra one with another transaction, or none of the pool does and the extra ones that do are one transaction |
| `CompactBlock.NotFullBefore` | src/blockencodings.cpp:126-131 | the scan goes on as long as a slot is empty |
| `CompactBlock.ExtraCountMeaning` | src/blockencodings.cpp:134-163 | the slots gained are held by extra transactions; the counter is not their number exactly when an extra candidate that is tried answers to the short id of a slot filled from the pool, with another transaction |
| `CompactBlock.ExtraEmptiesSlot` | src/blockencodings.cpp:150-155 | a pool transaction and an extra one that answer to the only short id leave its slot empty |
| `CompactBlock.ExtraCountWraps` | src/blockencodings.cpp:150-155 | a message and candidates after which the counter of extra transactions is 2^64 - 1 |
| `CompactBlock.PartiallyDownloadedBlock.IsTxAvailable` | src/blockencodings.cpp:170-174 | whether a slot is filled |
| `CompactBlock.PartiallyDownloadedBlock.FillBlock` | src/blockencodings.cpp:176-218 | refuses too few or too many; otherwise the n-th empty slot takes the n-th transaction |
| `CompactBlock.AvailableIsRight` | src/blockencodings.cpp:57-163 | if matching candidates are the true transactions, every available one is at its place |
| `CompactBlock.HeldIsAvailable` | src/blockencodings.cpp:57-163 | a transaction of the block is available if just one candidate answers to the short id of its witness hash |
| `CompactBlock.Reconstruct` | src/blockencodings.cpp:49-218 | if InitData succeeds, filling with the unavailable transactions in index order rebuilds exactly the block, up to 2^16 transactions |
| `CompactBlock.DifferenceFormatter.Ser` | src/blockencodings.h:22-28 | refuses a value not above the last, and writes the gap otherwise |
| `CompactBlock.DifferenceFormatter.Unser` | src/blockencodings.h:29-36 | accepts exactly gaps that lead to a 16-bit value |
| `CompactBlock.WriteIndexes` | src/blockencodings.h:45-48 | succeeds exactly on strictly increasing lists, and writes their gaps |
| `CompactBlock.ReadIndexes` | src/blockencodings.h:45-48 | succeeds exactly if every value fits in 16 bits |
| `CompactBlock.GapsRoundTrip` | src/blockencodings.h:17-37 | reading undoes writing |
| `CompactBlock.ReadRoundTrip` | src/blockencodings.h:17-37 | writing undoes reading |
| `Limbs.CarryStep` | src/arith_uint256.h:130-135 | one carry step preserves the represented sum |
| `Limbs.BitOrAdds` | src/arith_uint256.cpp:28-33 | or-ing numbers without common bits adds them |
| `Limbs.ShiftingLeftEnds` | src/arith_uint256.cpp:21-35 | the limbs of a left shift represent the product with a power of two modulo 2^256 |
| `Limbs.ShiftingRightEnds` | src/arith_uint256.cpp:38-52 | the limbs of a right shift represent the quotient by a power of two |
| `Arith256.ArithUint256.FromUint64` | src/arith_uint256.h:51-57 | represents the 64-bit number |
| `Arith256.ArithUint256.Add` | src/arith_uint256.h:127-137 | addition modulo 2^256, also of a number to itself |
| `Arith256.ArithUint256.Complement` | src/arith_uint256.h:61-67 | 2^256 - 1 minus the number |
| `Arith256.ArithUint256.Increment` | src/arith_uint256.h:165-172 | the number plus one modulo 2^256 |
| `Arith256.ArithUint256.Negate` | src/arith_uint256.h:69-76 | the negative modulo 2^256 |
| `Arith256.ArithUint256.Subtract` | src/arith_uint256.h:139-143 | subtraction modulo 2^256 |
| `Arith256.ArithUint256.ShiftLeft` | src/arith_uint256.cpp:21-35 | multiplication by a power of two modulo 2^256, for every shift |
| `Arith256.ArithUint256.ShiftRight` | src/arith_uint256.cpp:38-52 | division by a power of two, for every shift |
| `Arith256.ArithUint256.MultiplyByLimb` | src/arith_uint256.cpp:55-64 | multiplication by a 32-bit number modulo 2^256, the carry within 64 bits |
| `Arith256.ArithUint256.AddProduct` | src/arith_uint256.cpp:71-76 | one row of the product, up to a multiple of 2^256, the carry within 64 bits |
| `Arith256.ArithUint256.Multiply` | src/arith_uint256.cpp:67-80 | the product modulo 2^256, also of a number with itself |
| `Arith256.ArithUint256.Divide` | src/arith_uint256.cpp:83-106 | integer division for every nonzero divisor; zero is refused and leaves zero |
| `Arith256.ArithUint256.DivideBit` | src/arith_uint256.cpp:97-100 | one step of shift-and-subtract keeps quotient times divisor plus remainder |
| `Arith256.ArithUint256.CompareTo` | src/arith_uint256.cpp:109-118 | the order of the represented numbers |
| `Arith256.ArithUint256.Bits` | src/arith_uint256.cpp:179-191 | one more than the position of the highest bit |
| `CompactTarget.RoundedIsLargest` | src/arith_uint256.cpp:198-239 | packing rounds to the largest representable number not above |
| `CompactTarget.RoundedTwice` | src/arith_uint256.cpp:198-239 | rounding is idempotent |
| `CompactTarget.RoundedKeepsOrder` | src/arith_uint256.cpp:198-239 | rounding is monotone |
| `CompactTarget.OverflowIsExact` | src/arith_uint256.cpp:211-214 | the comparisons of the code say exactly when mantissa times 256^(exponent-3) reaches 2^256 |
| `CompactTarget.SetCompact` | src/arith_uint256.cpp:198-216 | the expanded value modulo 2^256, and both flags exactly |
| `CompactTarget.KnownTargets` | src/test/arith_uint256_tests.cpp:423-525 | what some compact forms stand for |
| `CompactTarget.GetCompact` | src/arith_uint256.cpp:218-239 | the rounded mantissa and exponent, with a sign exactly for nonzero negatives; the assertions hold |
| `CompactTarget.Repacked` | src/arith_uint256.cpp:198-239 | packing and unpacking gives the rounded number with no flag raised |
| `CompactTarget.TargetIsNotAllOnes` | src/chain.cpp:139-143 | a target plus one never wraps |
| `CompactTarget.GetBlockProof` | src/chain.cpp:131-144 | the work is floor(2^256 / (target + 1)), and zero exactly for unusable targets |
| `Base58.CanonicalUnique` | src/base58.cpp:87-125 | digits without leading zero are determined by their number |
| `Base58.EncodeBufferSuffices` | src/base58.cpp:97-97 | 256^n <= 58^(n*138/100+1) for every n |
| `Base58.DecodeBufferSuffices` | src/base58.cpp:52-52 | 58^n <= 256^(n*733/1000+1) for every n |
| `Base58.MultiplyAdd` | src/base58.cpp:100-112 | the in-place multiply and add leaves the new number, no carry, and no leading zero |
| `Base58.ToBase58` | src/base58.cpp:96-113 | the buffer holds the number of the bytes |
| `Base58.EncodeBase58` | src/base58.cpp:87-125 | the string is the one the specification of the encoding gives |
| `Base58.FromBase58` | src/base58.cpp:51-71 | the buffer holds the number of the characters; failure means an invalid character or too many bytes |
| `Base58.DecodeBase58` | src/base58.cpp:38-133 | accepts exactly well-formed strings within the length, and gives their bytes |
| `Base58.DecodeEncode` | src/base58.cpp:38-125 | decoding undoes encoding for every byte string |
| `Base58.EncodeDecode` | src/base58.cpp:38-125 | encoding undoes decoding up to the spaces around |
| `Base58.KnownStrings` | src/test/data/base58_encode_decode.json:4-4 | three bytes 0x62 are "a3gV"; a zero byte in front is a '1' |
| `Bech32.PolyXor` | src/bech32.cpp:130-216 | the remainder is affine under exclusive or of equal-length inputs |
| `Bech32.PolySmall` | src/bech32.cpp:130-216 | the remainder fits in 30 bits |
| `Bech32.ChecksumIsRight` | src/bech32.cpp:341-352 | of all six values exactly the checksum gives the constant of the encoding |
| `Bech32.BurstChangesRemainder` | src/bech32.cpp:130-216 | lists of any length that differ only within six neighbouring values have different remainders |
| `Bech32.BurstIsDetected` | src/bech32.cpp:327-338 | a string that verifies stops verifying for its encoding when values within six neighbouring ones change |
| `Bech32.PolyMod` | src/bech32.cpp:130-216 | the loop computes the remainder |
| `Bech32.AddValue` | src/bech32.cpp:193-212 | folding back bit by bit is one step of the remainder |
| `Bech32.ExpandHRP` | src/bech32.cpp:312-324 | high bits, a zero, low bits; `Bch.ExpandTells` says that these tell the human-readable part |
| `Bech32.VerifyChecksum` | src/bech32.cpp:327-338 | the encoding whose constant remains, if any |
| `Bech32.CreateChecksum` | src/bech32.cpp:341-352 | the checksum of the specification |
| `Bech32.CheckCharacters` | src/bech32.cpp:287-309 | true exactly for printable strings of one case |
| `Bech32.Encode` | src/bech32.cpp:357-370 | the string of the specification |
| `Bech32.Decode` | src/bech32.cpp:373-397 | what the string stands for, with every error case |
| `Bech32.DecodeEncode` | src/bech32.cpp:312-397 | decoding undoes encoding exactly when the length and the human-readable part allow it |
| `Bech32.EncodeDecode` | src/bech32.cpp:312-397 | encoding what was decoded gives the string back in lower case |
| `Bech32.KnownStrings` | src/test/bech32_tests.cpp:18-38 | "A12UEL5L" and "A1LQFN3A" stand for the part "a" and no data, one in each encoding |
| `Gf1024.NoShortPeriod` | src/bech32.cpp:37-44 | the element e of the field has order 1023: multiplying by it fewer times brings back zero only |
| `Gf1024.NoThree` | src/bech32.cpp:172-175 | three elements a, b, c with a + b + c, a·e^i + b·e^j + c and a·e^2i + b·e^2j + c all zero for 0 < j < i < 1023 have a = 0 |
| `Bch.EvalStep` | src/bech32.cpp:193-212 | at each of the three roots of the generator, a step of the remainder is one more value of the polynomial |
| `Bch.ThreeErrors` | src/bech32.cpp:158-175 | up to three values within 1023, all others zero, never have the remainder zero |
| `Bch.ErrorsChangeRemainder` | src/bech32.cpp:137-142 | lists of any length that differ in one, two or three places within 1023 have different remainders |
| `Bch.ErrorsAreDetected` | src/bech32.cpp:327-338 | values that verify stop verifying for their encoding after one, two or three errors within 1023 |
| `Bch.ExpandTells` | src/bech32.cpp:312-324 | the expansion and the values together tell the human-readable part and the data |
| `Bch.ErrorsAnywhereAreDetected` | src/bech32.cpp:312-338 | one, two or three wrong values anywhere in the expanded human-readable part and the data are detected |
| `Bch.WrongCharacterIsDetected` | src/bech32.cpp:312-338 | a wrong character in the human-readable part is detected, even with a wrong value in the data |
| `Bch.ValidStringsAreFarApart` | src/bech32.cpp:373-397 | valid strings of one encoding and length, with human-readable parts of one length and the same high bits, that differ, up to case, at three places at most are equal up to case |
| `SkipHeights.GetSkipHeight` | src/chain.cpp:79-91 | the skip height is strictly below |
| `SkipHeights.StepsBound` | src/chain.cpp:93-118 | from any height the walk clears the bits below the first one in which the target differs, two at a time from an odd height, before it goes below that one |
| `SkipHeights.WalkIsShort` | src/chain.cpp:87-118 | a walk between heights of k digits takes at most k*k/4 + 2k - 7 steps |
| `SkipHeights.WalkTakes110` | src/chain.cpp:87-89 | below height 2^18 no walk takes more than 110 steps |
| `SkipHeights.WalkIsLong` | src/chain.cpp:87-118 | from 2^p to height 2 the walk takes exactly (p+1)^2/4 + p - 2 steps |
| `SkipHeights.BoundIsAttained` | src/chain.cpp:87-118 | for every number of digits some walk takes as many steps as the bound allows |
| `Chain.BlockIndex.GetAncestor` | src/chain.cpp:93-118 | the walk along skips ends, at the block the walk along parents reaches; with all skips set it takes the steps that the bounds are about |
| `Chain.BlockIndex.BuildSkip` | src/chain.cpp:125-129 | the skip leads to the ancestor at the skip height, and all skips are set if those below were |
| `Chain.ParentsShare` | src/chain.cpp:172-175 | two different blocks of one height have in common what their parents have |
| `Chain.LastCommonAncestor` | src/chain.cpp:165-180 | the highest common block, or null if the lines never meet |
| `Chain.ActiveChain.SetTip` | src/chain.cpp:21-29 | after any calls the chain is exactly the line of the last block set |
| `Chain.ActiveChain.ContainsBlocks` | src/chain.h:452-456 | the lookup by height finds exactly the blocks of the chain |
| `Chain.ActiveChain.FindFork` | src/chain.cpp:60-69 | the highest block the chain and the line of a block have in common |
| `GolombRice.RoundTrip` | src/util/golombrice.h:14-43 | decoding undoes encoding, whatever follows in the stream |
| `GolombRice.KnownCode` | src/util/golombrice.h:14-29 | nine with two remainder bits is two ones, a zero and the bits of one |
| `GolombRice.Encode` | src/util/golombrice.h:14-29 | writes the code of the value, in chunks of at most 64 ones |
| `GolombRice.Decode` | src/util/golombrice.h:31-43 | reads the value at the front, or fails at the end of the stream |
| `GolombRice.FastRange64ByParts` | src/util/fastrange.h:25-48 | the form without 128-bit numbers computes the same |
| `BlockFilter.BuildHashedSet` | src/blockfilter.cpp:35-44 | sorted, with each hash exactly as often as elements have it |
| `BlockFilter.SumsOfTotals` | src/blockfilter.cpp:111-117 | below 2^64 the running sums are the totals of the differences, and in order |
| `BlockFilter.RoundTripAll` | src/blockfilter.cpp:93-102 | the values of a filter come back from its bits |
| `BlockFilter.EncodeDeltas` | src/blockfilter.cpp:95-100 | writes the differences of sorted values |
| `BlockFilter.Build` | src/blockfilter.cpp:75-103 | the filter holds each hash exactly as often as elements have it, sorted, and passes its own decode check; too many elements are refused |
| `BlockFilter.Parse` | src/blockfilter.cpp:50-73 | accepts exactly encodings of n values with nothing but padding after |
| `BlockFilter.GCSFilter.MatchInternal` | src/blockfilter.cpp:105-135 | true exactly when the query has a hash in common with the values that none before them exceeds, sums wrapping at 2^64 |
| `BlockFilter.NoneMissedIff` | src/blockfilter.cpp:105-135 | a query meets every value of the filter exactly when each value is at least all before it or repeats one of them |
| `BlockFilter.FilterMissesValue` | src/blockfilter.cpp:105-135 | a parsed filter holds the value 5, and a query for it fails |
| `BlockFilter.GCSFilter.ValuesAreFound` | src/blockfilter.cpp:105-135 | in a filter whose differences add up to less than 2^64 these are all its values |
| `BlockFilter.GCSFilter.Match` | src/blockfilter.cpp:137-141 | true exactly when the walk meets the hash of the element |
| `BlockFilter.GCSFilter.MatchAny` | src/blockfilter.cpp:143-147 | true exactly when some element matches by itself |
| `BlockFilter.MembersMatch` | src/blockfilter.cpp:75-141 | a filter matches every element it was built from |

## Left out

- Files, databases, sockets, locking outside the check queue, logging and tracing: they carry no state of these models.
- `Select_`, `GetChance` and the false-positive rate of the filters: probabilistic, not safety properties.
- `LocateErrors` and its field tables: finite tables and a heuristic choice.
- Bch.ErrorsChangeRemainder: the detection of four errors within 89 characters (src/bech32.cpp:141-142), which holds for this generator by exhaustive search, is not stated.
- `EmplaceCoinInternalDANGER`: outside the contract of the coin cache.
- Memory-usage counters and `ReallocateCache`, which account for memory, and `HaveInputs` and `AccessByTxid`, which loop over `HaveCoin` and `AccessCoin`.
- `FindAddressEntry_` and `size`, which read one field, and the consistency check that debug builds run around each call.
- Formats of the address file older than the one written now: only the current format is read.
- AddrManCodec.Unserialize: the stream is a record of its fields, not bytes.
- HeadersSync.HeadersSyncState.constructor: the clock and the block times before the start are inputs; heights are unbounded integers; the hash of the start block is the hash of its header.
- `NextHeadersRequestLocator` and `LocatorEntries`, which list hashes of known blocks for the next request.
- CuckooCache.Cache.constructor: the depth limit, a rounded logarithm, is an input of at least one.
- CuckooCache.Cache.Insert: elements are numbers, as in the signature and script caches; concurrent erasure is not modelled.
- CheckQueue.StepKeepsInv: does not model stop requests, the 32-bit width of the counters or the moves of check objects; each critical section is one step.
- CompactBlock.PartiallyDownloadedBlock.InitData: messages for which the source does not return are excluded by precondition; the hash-table crowding test is an arbitrary input.
- CompactBlock.Reconstruct: blocks of at most 2^16 transactions, for beyond them short ids do not lead to their slots.
- HeadersSync.HonestFits: six times the span of block times fits in 64 bits, and the offset of committed heights is below the period, as the source draws it.
- CompactBlock.ReadIndexes: the stream of compact sizes is the sequence of its numbers.
- `SetHex`, `GetHex`, `getdouble`, `EqualTo`, the bitwise operators of the 256-bit numbers and `--`: conversions to text and floating point, and operators that act limb by limb.
- `EncodeBase58Check` and `DecodeBase58Check`: a hash around the codec proved here.
- Base58.DecodeBase58: characters are compared by the ranges of the table, and lengths are unbounded.
- Bech32.Encode: values above 31 and upper-case human-readable parts are refused by precondition, as the source asserts or indexes out of its table.
- Chain.BlockIndex.GetAncestor: a parent and a height are fixed at creation.
- `FindEarliestAtLeast`, a binary search in the active chain.
- BlockFilter.Build: elements are numbers with an arbitrary hash, and the stream is its bits; the packing of bits into bytes and the compact size in front are not modelled.
