# A model of librdpma

This project models the hardest parts of the repository in Dafny and proves what they are for: the levelkv store, which
keeps a two-level hash table in host memory behind a write-back cache on a DPU, and several smaller machines that come
with it (argument scanning, bus scanning, DNS reading, configuration caching and name hashing in the bundled pciutils, and two
DMA copy programs). `dafny verify dfyconfig.toml` checks everything. Nothing of the original program is executed.

## The store

A bucket has four slots. A key has four candidate buckets, two in the top level and two in the bottom level. Buckets live
in host memory, cut into slices with one DMA client each; the DPU caches them in 128 frames with dirty flags, an LRU list,
a free list, and two tables that map buckets to frames and back. When the load reaches 0.95 the table grows: the bottom
level is rehashed into a new top level and the old top level becomes the new bottom level in place.

The proof goes up in layers, one file each:

- `Basics`, `RangeSums`, `LevelBuckets`: slot operations and what a bucket holds, as a multiset of entries.
- `LevelGeometry`: bucket numbers, candidates, client and offset of a bucket, and host memory as slices.
- `LruReplacer`, `FrameLists`: the recency list over every history, and which frame an access takes; the exact condition
  under which a frame keeps its bucket through a sequence of accesses.
- `CachedStore`: one step of the cache on values, coherence, and cache transparency.
- `DmaSchedule`: client threads complete copies in any order; disciplined programs have one outcome.
- `Fetching`: the steps of the cache with fetches in flight, each shown to keep the event log disciplined.
- `StoreContents`, `LevelPlacement`: the contents of the whole store, where entries may be, and what goes wrong when.
- `RehashSteps`: an expansion as a function of the state it starts in.
- `Dpu`: the class itself, with arrays, maps and loops as in the source, up to `Run`, whose answers are
  those of a multiset of entries for every sequence of requests.
- `ExpandProtocol`: the messages by which both sides expand, as a state machine over two FIFO channels.

Beside it stand `Getopt` with `CommandLine` (what a command line says and how it is spelled), `DnsReader` with `DnsPackets` (packets
and how they are written), `BusScan`, `BlockAccess`, `ConfigCache` and `IdNames` from pciutils, and `TaskRecycling` and
`CopyNegotiation` from the DMA programs.

Where the code does not do what it should, the code is kept and the exact condition is proved:

- `ProcessDelete` returns at the first hit and leaves later fetches unawaited. `LeftBehindNone` says exactly when nothing
  is left; `RefetchLosesWrite` follows a fetch left behind to the loss of a later write. The run loop is modelled with these
  fetches awaited after the delete, and reports when there were any.
- The lambda that splits a bucket clears a dirty mark after fetching other buckets, without having recorded an access to a
  bucket that was cached already. `SplitSurvivesExactly` says exactly when the frame still holds that bucket. Losing the frame
  does no harm by itself: the cache is broken exactly when the frame holds another bucket by then, dirty and different from host
  memory (`RetireExactly`, `SplitBucket`). `MarkCanBeLost` gives inputs for which a split ends that way, `LostMarkLoses` what is lost. It can only
  happen at a bottom bucket that was cached when the expansion began. With `touchFirst` set, the model records the access first and it cannot
  happen at all; the source is the model with `touchFirst` unset.
- Some inserts stand inside `ENSURE`, whose active definition discards its argument; a commented-out definition evaluates it.
  The model evaluates it, and a false argument ends the run. `Expand` is also proved with its inserts discarded: it then always
  completes and loses exactly the bottom level. `MoveToUninserted` is the moving step with its insert discarded: the new entry is
  nowhere.
- The branch that fetches a source bucket again while moving entries is never needed: the four candidates stay in
  their frames, because at most 36 frames are used before the move ends (`MoveFrom`, `InsertEntry`).
- In the copy negotiation three things leave the host waiting forever: a DPU whose context does not start still answers while it
  tears down and never copies, a DPU that fails to set up its buffers after a good negotiation ends without a message, and a status
  message that cannot be sent is given up. `HostLeftWaitingExactly` says that there are no others, `HostCanBeLeftWaiting` that all three
  happen.
- Failed first submissions of DMA tasks are ignored, and then polling never ends (`CopyThread`).

## Readings

- Keys and values are integers (only equality is used); hash values come from two arbitrary functions of the key.
- A DMA copy takes effect when it is issued and succeeds. `DmaSchedule` justifies the first; a failed copy is not modelled.
- The load factor is compared over integers, 100 * size >= 95 * slots; the source rounds it to float. As in the source, deletes never lower `size`.
- Widths of bucket ids and sizes are unbounded, except where bits matter (id pairs and byte swapping use bit-vectors).
- Channels deliver one message a progress step, in order. Configuration space and PCI devices do not change while they are read; a block read that
  fails may have stored some of the right bytes.

## Model

| member | source | states |
|---|---|---|
| `LevelBuckets.SearchSlot` | levelkv/src/common/level_hashing.hpp:34-42 | a value comes back if and only if some occupied slot has the key, and it belongs to an entry of the bucket |
| `LevelBuckets.DeleteSlot` | levelkv/src/common/level_hashing.hpp:44-53 | found if and only if the bucket has the key; then exactly one entry of that key is gone and the dirty flag is set, otherwise nothing changes |
| `LevelBuckets.InsertSlot` | levelkv/src/common/level_hashing.hpp:55-66 | refused if and only if all four slots are taken; otherwise the bucket holds exactly one more entry and the dirty flag is set |
| `LevelBuckets.Count` | levelkv/src/common/level_hashing.hpp:81-88 | the number of entries of the bucket |
| `LevelGeometry.GrownIsInitial` | levelkv/src/dpu/dpu.cpp:769-774 | growing the parameters of a level gives the initial parameters of the next level |
| `LevelGeometry.CandidatesPlaced` | levelkv/src/dpu/dpu.cpp:682-689 | for every hash the four candidates lie in the two halves of the top level and the two halves of the bottom level, so they are pairwise distinct |
| `LevelGeometry.CandidatesAre` | levelkv/src/dpu/dpu.cpp:682-689 | the first hash alone places the first and third candidate, the second hash the other two, each by its remainder within a half of a level |
| `LevelGeometry.SharedCandidates` | levelkv/src/dpu/dpu.cpp:682-689 | two keys share a candidate if and only if the hash that places it leaves the same remainder, for each of the four |
| `LevelGeometry.SharedTargets` | levelkv/src/dpu/dpu.cpp:783-790 | two keys share a rehash target if and only if the hash that places it leaves the same remainder, for both |
| `LevelGeometry.CandidatesCover` | levelkv/src/dpu/dpu.cpp:682-689 | every bucket of both levels is a candidate for some hashes |
| `LevelGeometry.ExpansionKeepsCandidates` | levelkv/src/dpu/dpu.cpp:682-790 | for every hash, the old top-level candidates are the bottom-level candidates of the grown table and the two rehash targets are its top-level candidates |
| `LevelGeometry.ClientBucketExact` | levelkv/src/dpu/dpu.cpp:325-348 | for every level, a live bucket is addressed in an existing client slice, on a bucket boundary, at exactly its byte position in the host table of its level |
| `LevelGeometry.ClientBucketInjective` | levelkv/src/dpu/dpu.cpp:325-348 | two live buckets with the same client and offset are the same bucket |
| `LevelGeometry.ClientBucketShifts` | levelkv/src/dpu/dpu.cpp:769-776 | after an expansion a surviving bucket keeps its offset and its client index drops by THREADS/2, as the first clients are erased |
| `LevelGeometry.HostPutAt` | levelkv/src/dpu/dpu.cpp:170-175 | a flush changes the host memory of that bucket and of no other |
| `LevelGeometry.HostExtended` | levelkv/src/host/host.cpp:83-99 | the four new slices leave every existing bucket as it was, and the next level reads as zero |
| `LevelGeometry.HostShifted` | levelkv/src/host/host.cpp:104-110 | dropping the first half of the slices and growing the parameters moves no surviving bucket |
| `LevelGeometry.InitialHostZero` | levelkv/src/host/host.cpp:52-78 | both tables of a new host read as empty through the client slices |
| `LruReplacer.Replacer.RecordAccess` | levelkv/src/dpu/replacer.cpp:3-9 | the recency list becomes the old one without the frame, with the frame in front; list and map stay consistent |
| `LruReplacer.Replacer.Evict` | levelkv/src/dpu/replacer.cpp:11-20 | -1 from an empty list; otherwise the last frame of the list, which is removed from list and map |
| `LruReplacer.ListByRecency` | levelkv/src/dpu/replacer.cpp:3-20 | for every history of accesses and evictions, the list holds distinct frames in order of last access: the next victim is the one unused for longest |
| `LruReplacer.RecentSparesLast` | levelkv/src/dpu/replacer.cpp:11-20 | while the list is longer than a window, the victim is none of the frames inside that window, and they stay inside |
| `FrameLists.AcquireWellListed` | levelkv/src/dpu/dpu.cpp:177-225 | after any access or allocation the free list and the recency list still share out the 128 frames, each named for at most one bucket |
| `FrameLists.AcquireRecent` | levelkv/src/dpu/dpu.cpp:177-225 | an access never takes one of the n < 128 most recently used frames for another bucket, and pushes them back by at most one place |
| `FrameLists.SurvivesExactly` | levelkv/src/dpu/dpu.cpp:265-298 | after any sequence of bucket accesses a frame still holds its bucket if and only if the distinct buckets accessed that were not ahead of it number at most the free frames plus the frames behind it |
| `FrameLists.FrontSurvives` | levelkv/src/dpu/dpu.cpp:265-298 | the frame used last survives any 127 accesses |
| `FrameLists.LastIsLost` | levelkv/src/dpu/dpu.cpp:265-298 | with no free frame, the frame unused for longest does not survive an access to any bucket that is not cached |
| `CachedStore.OccupyKeeps` | levelkv/src/dpu/dpu.cpp:177-225 | taking a frame for an uncached bucket, writing back a dirty victim, leaves the logical content of every live bucket unchanged and the cache coherent (table and ids inverse, clean frames equal to host memory) |
| `CachedStore.FetchKeeps` | levelkv/src/dpu/dpu.cpp:177-225 | a fetch leaves every live bucket unchanged, keeps the cache coherent, and the frame holds that bucket |
| `CachedStore.RegisterKeeps` | levelkv/src/dpu/dpu.cpp:247-255 | registering a completed fetch keeps coherence and content |
| `CachedStore.StoreKeeps` | levelkv/src/common/level_hashing.hpp:55-66 | writing a registered frame and marking it dirty changes that bucket and no other, and keeps coherence |
| `CachedStore.FreshOccupied` | levelkv/src/dpu/dpu.cpp:233-241 | a bucket of the next level that is not flagged as constructed is neither cached nor non-empty on the host, so zeroing a frame instead of fetching is right |
| `StoreContents.EntryAdded` | levelkv/src/dpu/dpu.cpp:485-503 | adding an entry to one bucket that is a home of its key adds exactly that entry to the whole store |
| `StoreContents.EntryMoved` | levelkv/src/dpu/dpu.cpp:516-563 | moving one entry between two of its homes and putting a new one in its slot adds exactly the new entry to the whole store, and every entry stays in a home |
| `StoreContents.EntryRemoved` | levelkv/src/dpu/dpu.cpp:402-440 | freeing a slot removes exactly that entry from the whole store |
| `StoreContents.ExtendKeeps` | levelkv/src/dpu/dpu.cpp:691-709 | beginning an expansion adds empty buckets and nothing else |
| `StoreContents.RetireContents` | levelkv/src/dpu/dpu.cpp:730-731 | dropping a split bucket drops exactly the bucket at the floor |
| `StoreContents.CommitKeeps` | levelkv/src/dpu/dpu.cpp:769-776 | ending an expansion moves nothing |
| `LevelPlacement.NotFoundIsDead` | levelkv/src/dpu/dpu.cpp:350-400 | if no candidate bucket has the key, no live entry of the whole store has it |
| `LevelPlacement.FoundIsLive` | levelkv/src/dpu/dpu.cpp:350-400 | an entry in a candidate bucket is an entry of the store |
| `LevelPlacement.KeysShare` | levelkv/src/dpu/dpu.cpp:682-790 | which keys share candidates and rehash targets, by the remainders of the two hash functions of the store |
| `LevelPlacement.RoomForKey` | levelkv/src/dpu/dpu.cpp:505-563 | an insert is stuck only if the four buckets its two hash remainders point at are all full |
| `LevelPlacement.PlacedGrown` | levelkv/src/dpu/dpu.cpp:769-790 | when the bottom level has been emptied, every entry already sits in a candidate bucket of the grown table |
| `LevelPlacement.LeftBehindNone` | levelkv/src/dpu/dpu.cpp:402-440 | a delete leaves no fetch unawaited if and only if a registered candidate has the key or no fetched candidate but the last has it |
| `LevelPlacement.ColdDeleteLeavesThree` | levelkv/src/dpu/dpu.cpp:421-438 | with no candidate cached and the key in the first one, three fetches are left unawaited |
| `LevelPlacement.RefetchDuplicates` | levelkv/src/dpu/dpu.cpp:177-225 | fetching a bucket that some frame is already named for breaks the one-frame-per-bucket invariant |
| `LevelPlacement.StaleEvictionForgets` | levelkv/src/dpu/dpu.cpp:208-209 | when the stale one of two frames named for a bucket is evicted clean, the registration of the other is erased and the bucket reads as host memory again |
| `LevelPlacement.RefetchLosesWrite` | levelkv/src/dpu/dpu.cpp:177-225 | from any coherent state with a fetch left behind whose frame is next but one in line: the bucket is fetched again and written, the next frame taken is the stale one, and the bucket reads as host memory; the write is lost |
| `LevelPlacement.SplitSurvivesExactly` | levelkv/src/dpu/dpu.cpp:710-731 | the bucket being split is still in its frame when its dirty mark is cleared if and only if enough other frames were available for the accesses of its own split |
| `LevelPlacement.FrontSurvivesSplit` | levelkv/src/dpu/dpu.cpp:739-743 | a bucket that was fetched just before its split always keeps its frame |
| `StoreContents.RetireExactly` | levelkv/src/dpu/dpu.cpp:730-731 | clearing the mark of the frame in which a bucket was split breaks the cache if and only if that frame holds another bucket by now, dirty and different from host memory |
| `LevelPlacement.LostMarkLoses` | levelkv/src/dpu/dpu.cpp:730-731 | a frame whose mark was lost is not written back: evicting it returns its bucket to what the host last held |
| `DmaSchedule.CopiesCommute` | levelkv/src/dpu/dma_client.cpp:149-185 | two copies with different frames and different buckets can be exchanged |
| `DmaSchedule.OutstandingIndependent` | levelkv/src/dpu/dma_client.cpp:130-185 | in a disciplined program all outstanding copies touch pairwise distinct frames and host buckets |
| `DmaSchedule.EveryInterleaving` | levelkv/src/dpu/dma_client.cpp:130-185 | at every point of every interleaving of the client threads, completing what is pending gives exactly the memory of sequential execution |
| `DmaSchedule.ReadAgrees` | levelkv/src/dpu/dma_client.cpp:130-185 | a frame with no outstanding copy reads the same in every interleaving as in sequential execution |
| `Fetching.LogFetch` | levelkv/src/dpu/dpu.cpp:177-225 | the flush and the fetch issued for a bucket are clear of all copies in flight: the event log stays disciplined and its sequential memory is the modelled one |
| `Fetching.SoundFetch` | levelkv/src/dpu/dpu.cpp:177-225 | with frames in flight protected, a further fetch keeps coherence, content, the log and the frames that must stay |
| `Fetching.SoundAwait` | levelkv/src/dpu/dpu.cpp:380-398 | awaiting the oldest fetch and registering it keeps coherence, content and the log |
| `LevelPlacement.StuckIsFull` | levelkv/src/dpu/dpu.cpp:505-563 | an insert is only refused by a store that holds at least sixteen entries |
| `RehashSteps.MarkCanBeLost` | levelkv/src/dpu/dpu.cpp:710-737 | a split ends with a lost mark whenever the cache is full, the bucket is in the frame unused for longest, and its only entry has a first target that is cached and not empty and a second one that is not constructed |
| `RehashSteps.EmptierIs` | levelkv/src/dpu/dpu.cpp:716-727 | a rehashed entry goes to a target that holds no more entries than the other, the first of two equal ones |
| `DpuStore.Dpu.constructor` | levelkv/src/dpu/dpu.cpp:58-95 | a new store of any level >= 3 is valid, quiet and empty, with 128 frames and 8 slices |
| `DpuStore.Dpu.FlushBucket` | levelkv/src/dpu/dpu.cpp:170-175 | host memory changes at the bucket of that frame, and only there, to the frame’s content |
| `DpuStore.Dpu.TakeFrame` | levelkv/src/dpu/dpu.cpp:185-215 | frame choice, write-back, and the updates of table, ids and recency list, as one step on the whole state |
| `DpuStore.Dpu.FetchBucket` | levelkv/src/dpu/dpu.cpp:177-225 | no live bucket changes its content, frames that must stay do, and the frame taken is the victim of the lists |
| `DpuStore.Dpu.AwaitFetch` | levelkv/src/dpu/dpu.cpp:247-255 | registers the oldest fetch and changes no content |
| `DpuStore.Dpu.NewBucket` | levelkv/src/dpu/dpu.cpp:265-298 | as FetchBucket, for a bucket of the next level not yet constructed: a zeroed frame is registered and no content changes |
| `DpuStore.Dpu.AnyInterleaving` | levelkv/src/dpu/dma_client.cpp:130-185 | in every valid state, whatever order the client threads completed the logged copies in, memory is the modelled one once nothing is pending |
| `DpuStore.Dpu.AnyInterleavingReads` | levelkv/src/dpu/dpu.cpp:384-397 | a registered bucket reads the same in every interleaving, also while later fetches are still in flight |
| `DpuStore.Dpu.ProcessSearch` | levelkv/src/dpu/dpu.cpp:350-400 | a value if and only if the key is live, one of its values, and the store unchanged |
| `DpuStore.Dpu.ProcessDelete` | levelkv/src/dpu/dpu.cpp:402-440 | found if and only if the key is live; then exactly one entry of that key is gone; the fetches left unawaited are exactly LeftBehind |
| `DpuStore.Dpu.FetchTwo` | levelkv/src/dpu/dpu.cpp:227-257 | both buckets end up registered, nothing awaited, no content changed, frames that must stay do |
| `DpuStore.Dpu.TryInsertInto2Buckets` | levelkv/src/dpu/dpu.cpp:454-503 | refused if and only if both buckets are full; otherwise one of them, which held no more entries than the other, holds exactly one more |
| `DpuStore.Dpu.MoveTo` | levelkv/src/dpu/dpu.cpp:531-561 | moves if and only if the destination has room; then the new entry is added, nothing else gained or lost, every entry in a home |
| `DpuStore.Dpu.MoveToUninserted` | levelkv/src/dpu/dpu.cpp:547-561 | the moving step with its final insert discarded: moves if and only if there is room, the contents are unchanged so the new entry is nowhere, and the cache is broken if and only if the source frame was clean |
| `DpuStore.Dpu.MoveFrom` | levelkv/src/dpu/dpu.cpp:519-563 | moves if and only if some entry of the bucket has room in another of its top-level candidates; the source frame stays in place throughout |
| `DpuStore.Dpu.InsertEntry` | levelkv/src/dpu/dpu.cpp:447-566 | accepted if and only if not stuck (all four candidates full and none of their entries movable); accepted adds exactly the entry, refused changes nothing; with room in the top-level pair the entry goes there, otherwise with room in the bottom-level pair there, each time into the emptier bucket with every other bucket unchanged |
| `DpuStore.Dpu.SplitBucket` | levelkv/src/dpu/dpu.cpp:710-731 | outcome and new state are a function of the old state; fails only for an entry with both targets full; otherwise the contents are kept and the bucket is dead, the frame held it to the end if and only if it survives, and a mark is lost if and only if the frame then holds another bucket, dirty and different from host memory; with the inserts discarded neither can happen |
| `DpuStore.Dpu.RehashAll` | levelkv/src/dpu/dpu.cpp:735-745 | all bottom buckets split with the contents kept, or the reason why not; with the inserts discarded, exactly the buckets from the top level on keep their contents |
| `DpuStore.Dpu.Expand` | levelkv/src/dpu/dpu.cpp:691-781 | completes if and only if the rehashing computed from the starting state does; then contents unchanged and parameters grown; otherwise some entry has both targets full, or (never when an access is recorded first) a mark was lost at a bottom bucket that was cached before; with the inserts discarded it always completes and loses exactly the bottom level |
| `DpuStore.Dpu.ProcessInsert` | levelkv/src/dpu/dpu.cpp:442-566 | unless it stops, the table grows if and only if size was at least 0.95 of the slots of both levels; it stops if and only if the rehashing computed from the starting state does; otherwise it adds exactly the entry if and only if it is not stuck in the state reached |
| `DpuStore.Dpu.Serve` | levelkv/src/dpu/dpu.cpp:623-668 | each request gets an answer, and leaves contents, that a multiset of entries allows; an insert is refused if and only if it is stuck, before the request or after the expansion it triggers; size counts exactly the accepted inserts and the table grows exactly at an insert that finds a load of 0.95; it stops only at such an insert, for a reason of the expansion |
| `DpuStore.Dpu.Run` | levelkv/src/dpu/dpu.cpp:612-670 | for every sequence of requests the answers are explained by a history of multisets that starts and ends with the contents; every insert is refused if and only if it is stuck in a state with those contents, and never below sixteen entries; fetches left behind by deletes are reported exactly; size and level are followed through every request; nothing is served behind the first END, and everything before it, unless an insert at a load of 0.95 stops the run because some entry of the contents has both targets full or, only if accesses are not recorded first, a mark was lost |
| `DpuStore.LoadLaw` | levelkv/src/dpu/dpu.cpp:792-794 | over every run, the table grows by one level at an insert that finds a load of 0.95, and only there, and size never passes 0.95 of the slots by more than one insert |
| `DpuStore.Session` | levelkv/src/dpu/dpu.cpp:612-670 | a new store of any level serves any requests up to the first END as an initially empty multiset would, within that load at every point; with accesses recorded first, only an entry with both targets full can stop it |
| `ExpandProtocol.RunInv` | levelkv/src/dpu/dpu.cpp:16-51 | every interleaving of DPU and host steps keeps the protocol invariant |
| `ExpandProtocol.TransfersHitMappedMemory` | levelkv/src/host/host.cpp:83-111 | in every reachable state, every DMA in flight and every DMA the DPU may issue goes to a slice the host has mapped and not freed, and no unexpected message has arrived |
| `ExpandProtocol.ClientsInOrder` | levelkv/src/dpu/dpu.cpp:16-35 | in every reachable state client i serves slice i of the bottom table and client THREADS/2+i slice i of the top table, and while rehashing the i-th new mmap is client THREADS+i |
| `ExpandProtocol.QuiescentAgree` | levelkv/src/host/host.cpp:17-36 | whenever nothing is under way both sides hold the same level and exactly its two tables are mapped |
| `ExpandProtocol.RankDecreases` | levelkv/src/dpu/dpu.cpp:691-781 | every internal step, of the protocol or completing a transfer, lowers a rank, so an expansion takes a bounded number of them |
| `ExpandProtocol.NeverStuck` | levelkv/src/dpu/dpu.cpp:691-781 | while anything is left to do some internal step is possible: no deadlock |
| `ExpandProtocol.RankZeroQuiescent` | levelkv/src/host/host.cpp:83-111 | when no internal step is left, nothing is under way |
| `Getopt.MyIndex` | ddio_tools/pciutils-3.5.1/compat/getopt.c:190-198 | the option string from the first occurrence of the character on, if there is one |
| `Getopt.ThreeFlips` | ddio_tools/pciutils-3.5.1/compat/getopt.c:234-271 | for all positions, reversing a range and then its two new parts swaps two adjacent blocks, each in order |
| `Getopt.Scanner.Exchange` | ddio_tools/pciutils-3.5.1/compat/getopt.c:234-271 | argv has the skipped non-options and the options behind them swapped as blocks, and the bounds follow |
| `Getopt.Scanner.SkipNonoptions` | ddio_tools/pciutils-3.5.1/compat/getopt.c:370-380 | skips to the next option element and keeps the outcome of the scan |
| `Getopt.Scanner.PassDashes` | ddio_tools/pciutils-3.5.1/compat/getopt.c:383-398 | moves -- in front of the non-options, ends the options, keeps the outcome of the scan |
| `Getopt.Scanner.TakeCharacter` | ddio_tools/pciutils-3.5.1/compat/getopt.c:544-613 | the answer, the words used and the characters left for one option character; what they mean is said by `CommandLine.ReadBack` |
| `Getopt.Scanner.Next` | ddio_tools/pciutils-3.5.1/compat/getopt.c:341-613 | one call gives the next answer of the left-to-right scan and keeps all the rest of its outcome; at the end optind splits argv into its options and its operands |
| `Getopt.Scan` | ddio_tools/pciutils-3.5.1/compat/getopt.c:341-613 | over a whole run, the answers are those of a scan that moves nothing, and argv ends as program name, options with their arguments, operands |
| `Getopt.ParseIsStable` | ddio_tools/pciutils-3.5.1/compat/getopt.c:277-295 | options and operands are the marked and unmarked words of the original argv, each in the original order |
| `Getopt.ParsePermutes` | ddio_tools/pciutils-3.5.1/compat/getopt.c:277-295 | no word is lost or duplicated |
| `Getopt.OperandsAre` | ddio_tools/pciutils-3.5.1/compat/getopt.c:383-409 | the operands are words that are no options, followed by everything behind a -- , which is then the last option |
| `CommandLine.ReadBack` | ddio_tools/pciutils-3.5.1/compat/getopt.c:544-613 | take any line of options with arguments (in the same word, in the next, optional and absent, or missing at the end), unknown letters and other words, allowed by the first occurrence of each letter in the option string and the colons behind it, and perhaps a --; spelled out as words it is read back as exactly these options, arguments and refusals, with exactly the other words as operands |
| `CommandLine.SpellWords` | ddio_tools/pciutils-3.5.1/compat/getopt.c:341-613 | every list of words is the spelling of such a line, so nothing a scan can meet is left unsaid |
| `CommandLine.ScanLine` | ddio_tools/pciutils-3.5.1/compat/getopt.c:341-613 | a whole run over a spelled line gives what the line says and leaves argv as program name, option words, operand words, split by optind |
| `BusScan.VisitBoth` | ddio_tools/pciutils-3.5.1/lib/generic.c:26-62 | visits of two sets of functions, one after the other, are a visit of both: marks closed, reachable and each function linked once |
| `BusScan.ReadsMean` | ddio_tools/pciutils-3.5.1/lib/generic.c:35-57 | what the words read say: a function answers unless its id reads 0 or all ones, a bridge has header type 1 or 2, vendor and device are the halves of the id |
| `BusScan.FunctionsAre` | ddio_tools/pciutils-3.5.1/lib/generic.c:28-42 | the functions of a bus are those of 32 devices of 8 that answer, the others behind a function 0 that answers with the multi-function bit |
| `BusScan.VisitOne` | ddio_tools/pciutils-3.5.1/lib/generic.c:37-60 | linking a function and scanning the bus behind a bridge is a visit of that function |
| `BusScan.Scan.ScanBus` | ddio_tools/pciutils-3.5.1/lib/generic.c:13-65 | for any marks beforehand: a marked bus changes nothing; otherwise all functions of the bus are visited with everything behind them; the recursion ends because unmarked buses run out |
| `BusScan.FullScan` | ddio_tools/pciutils-3.5.1/lib/generic.c:67-74 | a scan from nothing marks exactly the buses reachable from bus 0 through bridges and links every existing function of these buses exactly once |
| `BusScan.GenericScan` | ddio_tools/pciutils-3.5.1/lib/generic.c:67-74 | busmap holds exactly the reachable buses and the device list exactly their functions, each once and as read |
| `BlockAccess.PlanTiles` | ddio_tools/pciutils-3.5.1/lib/generic.c:165-196 | the widest-aligned-access plan covers the block without gap or overlap, in order, each access aligned to its size |
| `BlockAccess.PlanIsShortest` | ddio_tools/pciutils-3.5.1/lib/generic.c:165-196 | no aligned cover of the block has fewer accesses |
| `BlockAccess.BlockRead` | ddio_tools/pciutils-3.5.1/lib/generic.c:165-203 | succeeds if and only if no access of the plan is refused; then the trace is the plan and the buffer holds the block; otherwise it stops at the first refused access with everything before it stored |
| `DnsReader.SkipName` | ddio_tools/pciutils-3.5.1/lib/names-net.c:52-75 | the end of a name within a limit; which bytes are names is said by `DnsPackets.NameRead` and `DnsPackets.NameWritten` |
| `DnsReader.NameEndLocal` | ddio_tools/pciutils-3.5.1/lib/names-net.c:52-75 | a name that ends before a smaller limit ends at the same place under that limit |
| `DnsReader.ParsePacket` | ddio_tools/pciutils-3.5.1/lib/names-net.c:77-119 | accepts a packet if and only if all entries announced by its header can be read in it, and finds where each section begins |
| `DnsReader.Cursor.ParseRecord` | ddio_tools/pciutils-3.5.1/lib/names-net.c:128-149 | 0 exactly at the end of the section; -1 exactly when the name or the ten bytes behind it do not fit the section; otherwise the record and the place behind its data |
| `DnsReader.ReadSection` | ddio_tools/pciutils-3.5.1/lib/names-net.c:121-149 | from an accepted packet, reading any section but the questions gives exactly the announced records, as in the first pass, each inside the section, and ends exactly where the next section begins |
| `DnsPackets.NameRead` | ddio_tools/pciutils-3.5.1/lib/names-net.c:52-75 | labels of 1 to 63 bytes, ended by 0 or by a two-byte reference, are passed over exactly, if a byte follows within the limit |
| `DnsPackets.NameWritten` | ddio_tools/pciutils-3.5.1/lib/names-net.c:52-75 | whatever is passed over as a name is such a name |
| `DnsPackets.PacketRead` | ddio_tools/pciutils-3.5.1/lib/names-net.c:77-119 | every packet of questions and records, written out with numbers high byte first and any bytes behind it, is accepted with exactly its counts, and its sections are found with exactly its records |
| `DnsPackets.PacketWritten` | ddio_tools/pciutils-3.5.1/lib/names-net.c:77-119 | every accepted packet is one so written, with some bytes behind it |
| `DnsPackets.ReadWritten` | ddio_tools/pciutils-3.5.1/lib/names-net.c:121-149 | reading back a section of a written packet gives its records in order: type, class, time to live, length and data as written |
| `TaskRecycling.Conservation` | doca_dma_3/dma_common.c:197-230 | pairs completed, in flight, allocated and never started add up to buf_pair_idx; tasks add up too |
| `TaskRecycling.StalledExactly` | doca_dma_3/dma_common.c:568-575 | with nothing in flight polling is not done if and only if a first submission failed, or every task was lost to failed submissions before the pairs ran out |
| `TaskRecycling.DoneExactly` | doca_dma_3/dma_common.c:568-575 | polling is done if and only if every pair has been released; then nothing is in flight |
| `TaskRecycling.Resources.AllocateTasks` | doca_dma_3/dma_common.c:197-212 | stays inside the buffer arrays if and only if num_tasks <= num_buf_pairs; then task i holds pair i |
| `TaskRecycling.Resources.SubmitTasks` | doca_dma_3/dma_common.c:214-230 | the whole state: task i runs with pair i exactly if its submission succeeded; a failure is ignored |
| `TaskRecycling.Resources.OnCompleted` | doca_dma_3/dma_common.c:315-367 | the whole new state; a pair is never released twice; a failed submission releases the new pair and frees that task |
| `TaskRecycling.Resources.Poll` | doca_dma_3/dma_common.c:568-575 | for every order of completions: done if and only if every pair is released, each exactly once |
| `TaskRecycling.LostFirstNeverEnds` | doca_dma_3/dma_common.c:214-230 | if a first submission failed, polling does not end whatever completes |
| `TaskRecycling.PollEndsExactly` | doca_dma_3/dma_common.c:568-575 | if every completion is reported and later submissions succeed, polling ends if and only if no first submission failed and there is a task, or nothing to do |
| `TaskRecycling.AttentiveExists` | doca_dma_3/dma_common.c:315-367 | from every state such a course of events exists, with no more completions than pairs left |
| `TaskRecycling.CopyThread` | doca_dma_3/doca_dma_dpu/dma_dpu_main.c:128-143 | in bounds if and only if there are no more tasks than pairs; never done when a first submission fails; otherwise, with completions reported and submissions successful, done |
| `ConfigCache.View.Fetch` | ddio_tools/pciutils-3.5.1/lspci.c:82-108 | true if and only if nothing was missing or the one read succeeded; the read starts and ends at missing bytes; success makes exactly the range present; every present byte is the device’s |
| `ConfigCache.View.Grow` | ddio_tools/pciutils-3.5.1/lspci.c:95-103 | doubling keeps every byte and marks nothing new |
| `ConfigCache.View.CheckRange` | ddio_tools/pciutils-3.5.1/lspci.c:162-170 | present if and only if every byte of the range is; otherwise the first byte that is not, or a read past the buffer, exactly when all bytes up to its end are present |
| `ConfigCache.View.GetLong` | ddio_tools/pciutils-3.5.1/lspci.c:186-194 | a value if and only if the four bytes are present, and then the device’s little-endian value |
| `IdNames.Arena.Alloc` | ddio_tools/pciutils-3.5.1/lib/names-hash.c:28-51 | regions are aligned and never overlap, for every sequence of requests; a region lies inside its 8192 bytes if and only if the request fits an empty bucket; a new bucket begins if and only if the current one has no room |
| `IdNames.PairExact` | ddio_tools/pciutils-3.5.1/lib/names.h:42-56 | a pair of ids is recovered from its code if and only if both have 16 bits; every code is that of a pair of 16-bit ids |
| `IdNames.KeysDiffer` | ddio_tools/pciutils-3.5.1/lib/names-hash.c:61-83 | different ids of 16 bits have different keys |
| `IdNames.WideIdsClash` | ddio_tools/pciutils-3.5.1/lib/names.h:42-46 | wider ids can share a key |
| `IdNames.Table.Insert` | ddio_tools/pciutils-3.5.1/lib/names-hash.c:61-83 | the first insertion of a key wins: 1 and no change if the key is there, otherwise the name map gains exactly it; a category that does not fit a byte is never found and always added |
| `IdNames.Table.Lookup` | ddio_tools/pciutils-3.5.1/lib/names-hash.c:85-115 | the name of the key unless its source is shut out: local names and hwdb by skipping local ones, hwdb by its flag, net and cache unless asked for; none for a category that does not fit a byte |
| `CopyNegotiation.NtohqInverse` | doca_dma/pack.c:30-45 | ntohq is its own inverse for every 64-bit value |
| `CopyNegotiation.NtohqBytes` | doca_dma/pack.c:30-45 | on a little-endian machine byte i of the result is byte 7 - i of the value; otherwise nothing changes |
| `CopyNegotiation.RunInv` | doca_dma/dma_copy_core.c:687-818 | every interleaving of host and DPU steps, with any failures of set-up, processing, copying and sending, keeps the invariant |
| `CopyNegotiation.SuccessMeansCopied` | doca_dma/dma_copy_core.c:1166-1268 | the host completes only after all copies, with exactly one sender, equal sizes, the file no larger than the limit, and both buffers holding the file of the sender |
| `CopyNegotiation.CopiesOnlyWhenAgreed` | doca_dma/dma_copy_core.c:946-1113 | no copy is made before both sides agree on the size, and the file of the sender is never overwritten |
| `CopyNegotiation.SucceedsExactly` | doca_dma/dma_copy_core.c:946-993 | some run completes if and only if exactly one side has the file and its size is at most the limit |
| `CopyNegotiation.HostLeftWaitingExactly` | doca_dma/dma_copy_core.c:1115-1268 | when nothing more can happen the host is still waiting if and only if its status message could not be sent, or the DPU ended before its first copy without a message and the negotiation was completed |
| `CopyNegotiation.HostCanBeLeftWaiting` | doca_dma/dma_copy_core.c:1143-1196 | for every setup that could succeed there are three such runs: the context does not start, the buffers cannot be set up, or all copies are made and the report cannot be sent |

## Left out

- `DpuStore.Dpu.Expand`: the condition under which it completes is computed by rehashing on values (`Rehashed`); no shorter one is given.
- `ExpandProtocol.TransfersHitMappedMemory`: that every transfer has been awaited when the rehash ends is part of the model of that step, as the store guarantees it; fetches that a delete left unawaited are not in flight then.
- `DpuStore.Dpu.Run`: a request stream is not followed beyond an expansion that does not complete, nor with the inserts inside ENSURE discarded; UPDATE requests have no effect, as in the source.
- `DpuStore.Dpu.ProcessDelete`: what later requests do with fetches left unawaited is shown step by step (`RefetchLosesWrite`), not over whole runs.
- `DpuStore.Dpu.MoveToUninserted`: this variant is one step of the moving loop, not threaded through the loop.
- `ConfigCache.View.GetLong`: the byte and word readers are the same with fewer bytes and are not repeated.
- `IdNames.Table.Insert`: what a table holds after a category that does not fit a byte is given as chains; that it still stands for a map is only promised without such insertions.
- `TaskRecycling.Resources.Poll`: the order of completions is a parameter; the error callback, which exits, is not modelled.
- `IdNames.Arena.Alloc`: wrap-around of 32-bit sizes is not modelled.
- `Getopt.Scanner.Next`: only the permuting order and short options; long options, the other two orders and calls after the end are not modelled, nor are messages on stderr.
- ProcessUpdate and UpdateSlot: no request reaches them.
- FlushAll, CopyBucket, debugging output, timers and the request queue with its threads.
- Bytes of keys and values, the hash function itself and seed generation.
- Connection loss, malformed message lengths and unknown message types in both message protocols.
- The text strings inside DNS records and the construction of query names.
- Sorting, filtering and printing in lspci, and setpci.
- doca_dma_2, the benchmark drivers, the RPC wrappers, and everything inside the DOCA SDK.
