# Verification model of Wangshu

Wangshu is a Lua 5.1 virtual machine in Go whose heap is a self-managed word array. This project
models the parts on which its memory safety and its transparency rest, and proves what they promise,
for all inputs and over whole runs. `dafny verify dfyconfig.toml` checks everything.

| component | files | main result |
|---|---|---|
| tables | `Values`, `NodeChains`, `ArraySizing`, `RawTable`, `TableRuns` | an in-place hybrid array and hash table with chained nodes, Brent relocation, tombstones and rehash is a finite map; over any run last write wins and the generation contract of cached slots holds; traversal with overwriting visits each key once |
| inline caches | `TableStore`, `AccessChains`, `InlineCache` | reads and writes are what their chains of `__index` and `__newindex` come to; caching them is invisible over any history of one pc |
| arena | `SizeClasses`, `ArenaLayout`, `ArenaMoves`, `FreeLists`, `ArenaState`, `ArenaContents`, `Arena`, `ArenaRuns` | the allocator over a real word array, free lists threaded through it, answers every request as a store of separate zeroed blocks would, reusing free blocks before it grows; bytes are conserved |
| collector | `ObjectGraph`, `HeapFields`, `Tricolor`, `Intern`, `Collector`, `CollectorRuns` | a collection frees exactly the objects no chain of fields leads to; over any run nothing dangles, field by field, and nothing else is freed |
| frames | `FramePacking`, `FrameStack`, `CallFrames` | packed, relocatable frames with a hot top refine a plain stack; calls, returns and varargs move the right values |
| coroutines | `CoroutineStates`, `CoroutineSteps`, `Coroutines`, `CoroutineRuns` | in every nesting of calls, resumes, re-entries and errors a yield that bubbles up leaves a resume point for the top frame, or is refused; states follow section 2.11 of the Lua 5.1 Reference Manual |
| tiers | `TierMachine` | over any run rechecks are bounded, counters and installed code agree with the tiers, and every promotion is one way and has its cause in one event |
| analysis | `LuaSyntax`, `WalkTraces`, `CompilabilityWalk` | the compilability walk terminates on any recursion; what it excludes, and what it does not, is exactly what it meets says |

Mutable Go structures are classes with in-place updates: `RawTable`, `Tables`, `CacheSlot`, `Arena`,
`Collector`, `FrameThread`, `LuaThread`, `Machine`, `Bridge`, `Visitor`. Each keeps an invariant
`Valid` and is specified against a value it stands for (a finite map, the held blocks, an object
graph, a plain stack of frames). Heavy reasoning is in lemmas over values; the methods hide the
definitions they do not need.

Reading notes.

- A `Chart` (in `NodeChains`) says for each slot which slots its links reach, its only predecessor,
  and where each key sits. That link targets lie at or above the free cursor, that each has one
  predecessor, and that a misplaced key's slot is nobody's main position is what makes tombstone
  reuse and relocation safe; the source relies on these facts without stating them.
- Arena addresses and sizes are counted in 8-byte words; requests and returns stay in bytes.
- `after` maps in `FreeLists` give, for each free block, the blocks at or behind it in its list.
- The collector is run with its callbacks as data: root references and values, thread records, and
  the arena's choice of an address for a new object, which is only required to be unused.
- `goStack` in `Coroutines` is the part of the Go call stack that matters: resumes with what their
  deferred functions restore, re-entries with the frame depth they cut back to, and host functions
  with the instruction that called them. `mode` says whether the innermost of these runs or has
  returned the yield sentinel or an error, which its caller is yet to handle; so the bubbling of a
  yield is one step per Go caller.
- `Shows` in `LuaSyntax` is what a piece of syntax shows to the compilability walk whatever names are
  bound to; `BOUND` are the two signals that depend on bindings. The walk visits expanded bodies in
  its own tables, so what it says of a name holds as long as no expanded body touches that name.
- `Flat` in `WalkTraces` lists what a walk meets, the events of a known local function put in where it is
  first called; `After` says what names stand for at each of its moments.
- `ObjectGraph` speaks of sets of references; `HeapFields` says the same field by field, and is what the
  run theorems of the collector are stated in. `AccessChains` does that for the table accesses.
- Backend answers may differ from one question to the next; each event of `TierMachine` brings its
  own.

Where the source and its comments differ, the model follows the code.

- `packCIWord2` (internal/crescent/state.go:1530-1532) calls the 16-bit nresults field good up to
  65535; it is read back sign-extended, so `PackRoundTrip` has it good from -32768 to 32767.
- `truncateCI` (internal/crescent/state.go:1759-1764) is described as a slice truncation; asked for
  the present depth it reloads the top from the segment and loses what the hot copy had ahead of it.
  `TruncateCI` says exactly when it is plain truncation; at an unchanged depth that comes to the
  segment not lagging behind the hot copy. The callers (internal/crescent/meta.go:402, 412) drop a
  frame or have just popped one, which reloads the hot copy too, so they never see the difference.
- A frame keeps its vararg count in 16 bits (internal/crescent/frame.go:195) while its base uses the
  full count; `VarargsAreExtras` gives the exact bound, 65535, and `LostVarargs` a call
  past it.
- The comment on `AllocBytes` (internal/arena/arena.go:242-244) calls reused memory dirty; the code
  clears it, and `AllocBytes` here promises zeros.

## Model

| member | source | states |
|---|---|---|
| NodeChains.ChainedOk | internal/crescent/rawtable.go:242-247 | hooking a new key's slot behind its main position keeps the chain shape: every link target at or above lastfree, at most one predecessor per slot, no cycle, every live key reachable from its main position |
| NodeChains.RelocatedOk | internal/crescent/rawtable.go:214-240 | Brent relocation of an occupant that is out of its main position keeps the same shape, even when slots in the chains are reused tombstones |
| NodeChains.TombstoneOk | internal/crescent/rawtable.go:146-163 | deleting a key but keeping its link keeps the shape and loses no other key |
| NodeChains.PlaceAtMainOk | internal/crescent/rawtable.go:196-201 | writing a key into its free main position keeps the shape, also when that slot is a tombstone inside somebody's chain |
| NodeChains.FreeSlotIsNobodysMain | internal/crescent/rawtable.go:204-230 | the slot relocation frees is never the main position of another live key, which is why its link may be reset |
| NodeChains.RoomMeansFree | internal/crescent/rawtable.go:255-270 | as every slot at or above lastfree was in use, a node array with fewer keys than slots still has a free slot below the cursor |
| RawTable.RawTable.FindSlot | internal/crescent/rawtable.go:97-109 | the chain walk terminates and finds the slot of a key exactly when the key is in the hash part |
| RawTable.RawTable.RawGet | internal/crescent/rawtable.go:87-110 | a read is the lookup of the finite map the table stands for, with -0 as +0 and NaN and nil never found |
| RawTable.RawTable.RawSet | internal/crescent/rawtable.go:129-173 | a write is the map update, told key by key (nil deletes, nil and NaN keys are refused with their own errors and change nothing, -0 is +0); slots stay put while the generation stands; giving a present key another value keeps both parts, the place of every key and the generation; terminates although it recurses through rehash |
| RawTable.RawTable.InsertNewKey | internal/crescent/rawtable.go:191-251 | a new key is added to the map, through its main position, relocation, chaining or rehash; with room for it no rehash happens |
| RawTable.RawTable.FindFreeNode | internal/crescent/rawtable.go:255-270 | the descending cursor returns a free slot unless all below it are in use, and everything it passed was in use |
| RawTable.RawTable.FindPredecessor | internal/crescent/rawtable.go:221-226 | the predecessor walk terminates and finds the one slot that links to the occupant |
| RawTable.RawTable.RelocateOccupant | internal/crescent/rawtable.go:214-240 | moving an occupant away leaves the map with the new key added |
| RawTable.RawTable.DeleteSlot | internal/crescent/rawtable.go:144-163 | deletion removes exactly that key and moves the generation |
| RawTable.RawTable.ClearWeak | internal/gc/sweep.go:165-209 | clearing a weak table in place leaves exactly the entries whose weak sides live, keeps chains whole, and moves the generation when a node was cleared |
| RawTable.RawTable.CollectPairs | internal/crescent/rawtable.go:276-293 | the pairs collected list the map exactly once each |
| RawTable.RawTable.Rehash | internal/crescent/rawtable.go:275-409 | the map is unchanged, the new array part has the largest size among the powers of two up to 2^24 of which the keys and the incoming key use more than half, 0 if there is none, and there is room for the incoming key |
| RawTable.RawTable.Reinsert | internal/crescent/rawtable.go:405-408 | reinserting into fresh parts rebuilds the map and never triggers another rehash |
| RawTable.CountHashKeys | internal/crescent/rawtable.go:357-371 | how many keys, the incoming one included, the hash part will hold |
| ArraySizing.TallyKeys | internal/crescent/rawtable.go:294-330 | the log2 buckets count exactly the keys in each range, and maxKey is the largest index |
| ArraySizing.ChooseArraySize | internal/crescent/rawtable.go:296-354 | the size chosen is the largest power of two up to 2^24 more than half of whose slots would be used, 0 if none, although the walk counts in buckets and stops at maxKey |
| ArraySizing.ChooseHashSize | internal/crescent/rawtable.go:372-377 | the smallest power of two strictly above the number of hash keys |
| ArraySizing.NothingLarger | internal/crescent/rawtable.go:347-353 | stopping at maxKey loses no candidate: no larger size can be more than half full |
| ArraySizing.BestIs | internal/crescent/rawtable.go:296-354 | the size is 0 or one of the powers of two up to 2^24 with more than half of its indices among the keys, and of no larger one are more than half |
| TableRuns.RawNext | internal/crescent/rawtable.go:445-493 | next returns the first slot in use past the key's place, array slots first and then nodes, or that there is none; an unknown key is an error |
| TableRuns.Traverse | internal/crescent/rawtable.go:445-493 | feeding each key back, with any values written to present keys between the steps, visits every key exactly once, array indices ascending, then slots ascending, each with the value it has when it is met, and ends |
| TableRuns.Overwrite | internal/crescent/rawtable.go:129-173 | any values written to present keys leave the parts, the keys, their order and the generation |
| TableRuns.RawBorder | internal/crescent/rawtable.go:413-436 | the length found is a border: it is 0 or holds a value, and the next index holds none |
| TableRuns.LastWriteWins | internal/crescent/rawtable.go:87-173 | after any writes, metatable changes and weak sweeps of any table, each key reads as what was last written to it, as at the start if nothing was, nil once a sweep took it |
| TableRuns.Run | internal/crescent/rawtable.go:10-20 | over any run of writes, metatable changes and weak sweeps, from any table: each changes the map, key by key, as it must; every key reads as last written; and between any two moments at which the 32-bit generation reads the same within one wrap, every slot in use at the earlier holds its key at the later, with the value a lookup then gives |
| TableStore.Tables.Write | internal/crescent/rawtable.go:129-173 | a write to one table of a store leaves the others and every other table's slots as they were |
| TableStore.Tables.SweepWeak | internal/gc/sweep.go:165-209 | a weak sweep of one table leaves the others, and every table's slots while its generation stands |
| TableStore.Tables.Create | internal/crescent/alloc.go:32-50 | a new table is empty, has no metatable, and leaves every other table and its slots as they were |
| AccessChains.ReadIsChain | internal/crescent/meta.go:81-141 | a read of tables, userdata or strings has an answer if and only if the chain of objects followed through `__index` comes to it: a value, nil, a handler and the object it is called on, not indexable, or a loop at exactly 100 links |
| AccessChains.WriteIsChain | internal/crescent/meta.go:144-191 | a write goes to a table, a handler or an error if and only if the chain followed through `__newindex` comes to it, with the bad-key errors before any handler is looked up |
| InlineCache.RawGetWithLoc | internal/crescent/ic.go:146-168 | the lookup with location returns the raw lookup's value and where it sits |
| InlineCache.IndexWithMeta | internal/crescent/meta.go:81-141 | the uncached read comes to what its chain of objects comes to (`ReadComesTo`): fewer than 100 that lack the key hand it to their `__index`, and the next holds a value, has no handler, has a function to call, or cannot be indexed; 100 make a loop error |
| InlineCache.SetIndexWithMeta | internal/crescent/meta.go:144-191 | the uncached write comes to what its chain of `__newindex` handlers comes to (`WriteComesTo`), nil and NaN keys refused where a table lacks them; then just that table holds the value, told key by key |
| InlineCache.Hit | internal/crescent/ic.go:33-56 | a hit happens exactly when the slot knows this key of this table at its present generation and the value is not nil, and returns what a raw lookup would |
| InlineCache.Fill | internal/crescent/ic.go:59-78 | afterwards the slot knows the key; a refill under another table or generation is counted, up to 255 |
| InlineCache.IcGet | internal/crescent/ic.go:25-78 | the cached read comes to what the chain of objects comes to, as the uncached read does, whatever the slot held before, and leaves the slot ready for the same read when the table itself had the key |
| InlineCache.WriteHit | internal/crescent/ic.go:92-113 | a write through the slot happens exactly when a read would hit and the new value is not nil, and leaves the table as a raw write would |
| InlineCache.CachedAssign | internal/crescent/ic.go:83-133 | the cached write, with everything its handler runs at the same pc, leaves what the uncached write leaves |
| InlineCache.RunCached | internal/crescent/ic.go:25-133 | transparency: over any history of reads, writes, nested handlers, foreign writes, metatable changes, new tables and weak-table sweeps at one pc, outcomes and tables equal those of the uncached run, and are, event by event, what chains and maps make them (`History`) |
| SizeClasses.SizeClassTight | internal/arena/freelist.go:58-84 | a request gets the smallest class that holds it, at most 7 words larger, and a block goes back to the class it came from |
| SizeClasses.BlockWords | internal/arena/arena.go:259-263 | a block has at least the bytes asked for and at most 63 more |
| SizeClasses.BlockWordsLeast | internal/arena/arena.go:259-263 | no smaller size the allocator carves holds the bytes asked for |
| SizeClasses.LargeClassMonotone | internal/arena/freelist.go:49-55 | larger blocks never fall into lower LARGE buckets, so first fit may start at the request's bucket |
| SizeClasses.FloorClass | internal/arena/freelist.go:318-330 | the largest class that fits, leaving at most 7 words over, -1 for none |
| FreeLists.PushSmall | internal/arena/freelist.go:130-138 | pushing onto a small bucket keeps all singly linked lists sound and complete |
| FreeLists.PopSmall | internal/arena/freelist.go:250-263 | so does popping |
| FreeLists.InsertLargeOk | internal/arena/freelist.go:211-228 | hooking a block in front of its LARGE bucket keeps every doubly linked list sound: bucket by size, links both ways, all free blocks listed |
| FreeLists.UnlinkLargeOk | internal/arena/freelist.go:232-246 | so does unhooking one from anywhere in its bucket |
| ArenaState.InsertStep | internal/arena/freelist.go:211-228 | inserting keeps the whole arena invariant: lists, address index, tiling, free byte count, coalescing, zeros above bump |
| ArenaState.RetreatStep | internal/arena/freelist.go:194-203 | lowering bump over a cleared block keeps it, so memory carved again is zero |
| ArenaState.SplitStep | internal/arena/freelist.go:294-309 | cutting a block in hand in two keeps it |
| ArenaState.MergeStep | internal/arena/freelist.go:184-193 | joining a block in hand with its neighbour keeps it |
| ArenaMoves.NoneFitsExactly | internal/arena/freelist.go:250-313 | what serves a request: up to 64 words a free block of just that size, past that any LARGE one as large |
| ArenaAllocator.Arena.UnlinkLarge | internal/arena/freelist.go:232-246 | takes the block off its bucket and the index; outstanding contents are untouched |
| ArenaAllocator.Arena.InsertLarge | internal/arena/freelist.go:211-228 | hooks and indexes the block; outstanding contents are untouched |
| ArenaAllocator.Arena.FreeLarge | internal/arena/freelist.go:182-204 | gives up exactly the block: joined with the free LARGE block before it and the one after it, if any, it becomes one free block, or lowers bump when it ends there; every other block keeps its words |
| ArenaAllocator.Arena.Free | internal/arena/freelist.go:105-144 | removes exactly the block from what is held, null does nothing, nothing is dropped; a small block is free as it was, a larger one as above |
| ArenaAllocator.Arena.PopSizeClass | internal/arena/freelist.go:250-263 | returns a free block of the class, 0 exactly when there is none |
| ArenaAllocator.Arena.PopLarge | internal/arena/freelist.go:277-313 | first fit over the buckets returns 0 only when no free LARGE block is big enough; a split returns the rest and drops at most 7 words |
| ArenaAllocator.Arena.SplitLarge | internal/arena/freelist.go:294-309 | the rest of a split is one free LARGE block, or the largest small class that fits with at most 7 words dropped behind it |
| ArenaAllocator.Arena.ZeroFill | internal/arena/arena.go:288-293 | the block is all zero and nothing else changed |
| ArenaAllocator.Arena.Grow64 | internal/arena/arena.go:331-361 | grows to the doubled capacity that is enough, refuses exactly beyond the maximum, keeps every held word |
| ArenaAllocator.GrownEnough | internal/arena/arena.go:331-361 | doubling ends at enough room, at least twice the old capacity, and short of the maximum below twice what was asked |
| ArenaAllocator.Arena.Compact | internal/arena/arena.go:211-233 | it shrinks exactly when the capacity is more than twice the target, what is in use and 64 KiB, and then to the largest of these; every held word is kept |
| ArenaAllocator.Arena.AllocBytes | internal/arena/arena.go:252-283 | hands out a zeroed block of at least the bytes asked for, disjoint from everything held, others unchanged: a free block where one fits, with what is left of it free again, and bump untouched; only where none fits the words at bump, which moves by just that much, the capacity growing as far as needed; refuses exactly when bump would then pass the maximum |
| ArenaAllocator.Arena.SetWordAt | internal/arena/arena.go:318-326 | a write into a held block changes that word of that block alone |
| ArenaContents.HeldApart | internal/arena/arena.go:252-293 | outstanding blocks lie in [1, bump), are disjoint, and overlap no free block |
| ArenaContents.BytesConserved | internal/arena/freelist.go:105-330 | bytes below bump are outstanding bytes plus freeBytes plus the tails of splits |
| ArenaRuns.Run | internal/arena/arena.go:252-361 | any sequence of requests, from an unused arena through sound states: each is answered as a store of separate blocks would, an allocation with at least the bytes asked for, refused only when no free block fits and bump cannot move, what is held and only that taken back, written or read, a read giving the word last written; and each changes blocks, bump and capacity as it must; at every moment the contents are what the log makes of an empty store, and no free LARGE block lies next to another or to bump; at most 7 words are dropped per request |
| ObjectGraph.ClosedHoldsReachable | internal/gc/mark.go:62-73 | a set with the roots that is closed under references holds everything reachable |
| ObjectGraph.SurvivorKids | internal/gc/sweep.go:165-209 | a survivor, weak table or closed upvalue, refers to survivors only, and an upvalue keeps its value |
| ObjectGraph.CollectedOk | internal/gc/collector.go:308-357 | after a collection no survivor, thread record or weak entry refers to a freed object |
| Tricolor.MarkStep | internal/gc/mark.go:46-60 | graying keeps: black objects have no unmarked references, only reachable objects are marked, the gray stack lists each gray object once |
| Tricolor.MarkedIsReachable | internal/gc/mark.go:62-73 | with an empty gray stack the black objects are exactly the reachable ones and the rest still has the dead colour |
| Tricolor.UnlinkOk | internal/gc/sweep.go:43-50 | unlinking the object after a prefix of the sweep chain leaves the chain of the others |
| HeapFields.HeapLeads | internal/gc/mark.go:76-172 | nothing dangles, field by field: a table's slots, node keys and values and metatable, a closure's upvalues or values, a userdata's metatable and environment, an upvalue's value, a live thread record's stack, open upvalues, body and transfer values all lead into the heap |
| HeapFields.RootsLeading | internal/gc/mark.go:10-35 | so does every root: references, values, and what the active threads hold |
| HeapFields.PlainIsFields | internal/gc/mark.go:76-172 | a program may put an object into the heap exactly when its fields lead into it |
| HeapFields.KidsAreFields | internal/gc/mark.go:76-172 | marking follows a reference exactly when a field of the object holds it, the weak sides of weak tables left out |
| HeapFields.RootsAreFields | internal/gc/mark.go:10-35 | and starts from it exactly when a root holds it |
| HeapFields.LiveIsReached | internal/gc/mark.go:62-73 | what marking reaches is exactly what chains of such fields lead to from a root |
| HeapFields.SurvivorsAre | internal/gc/sweep.go:165-209 | a collection leaves exactly the objects reached so, each as it was but for the entries of weak tables that died and open upvalues whose thread went, which keep their value |
| CollectorModel.Collector.MarkRef | internal/gc/mark.go:46-60 | grays and pushes a dead-white object once; null and others are skipped |
| CollectorModel.Collector.MarkNodes | internal/gc/mark.go:121-130 | marks the sides of nodes that are not weak |
| CollectorModel.Collector.ScanThread | internal/gc/mark.go:157-172 | marks a thread's stack, open upvalues, body and transfer values; nothing of a dead coroutine |
| CollectorModel.Collector.ScanObject | internal/gc/mark.go:76-98 | marks everything an object holds, weak sides apart, and lists a weak table once |
| CollectorModel.Collector.MarkAll | internal/gc/mark.go:62-73 | drains the gray stack and terminates |
| CollectorModel.Collector.MarkRoots | internal/gc/mark.go:10-35 | marks every root |
| CollectorModel.Collector.CloseUpvals | internal/crescent/table.go:110-127 | closes exactly the thread's upvalues at or above a level over their slots' values |
| CollectorModel.Collector.ReleaseThreads | internal/crescent/coroutine.go:164-181 | drops exactly the unreached coroutines' records and closes their upvalues |
| CollectorModel.Collector.ClearNodes | internal/gc/sweep.go:187-197 | empties exactly the nodes with a dead weak side, keeping their links, and reports whether there was one |
| CollectorModel.Collector.ClearWeakTables | internal/gc/sweep.go:165-209 | clears each listed table once; all other objects are untouched |
| CollectorModel.Collector.FreeObject | internal/gc/sweep.go:71-100 | removes the object, a string also from its bucket, with the intern table still exact |
| CollectorModel.Collector.Sweep | internal/gc/sweep.go:17-40 | keeps exactly the live objects, on the chain and in the next cycle's candidate colour, and counts their bytes |
| CollectorModel.Collector.Collect | internal/gc/collector.go:308-357 | one collection leaves exactly what chains of fields lead to from a root, each object as it was but for what died in weak tables and for upvalues of threads that went; every field leads into the heap again; colours flip; the next threshold is set; the invariant holds again |
| CollectorModel.Collector.MaybeCollect | internal/gc/collector.go:282-289 | collects exactly when not stopped and stressed or with at least the threshold allocated; otherwise nothing changes |
| CollectorModel.Collector.UpdatePending | internal/gc/collector.go:250-274 | the polled flag says exactly whether a safepoint would collect |
| CollectorModel.Collector.LinkSweep | internal/gc/collector.go:187-193 | a new object heads the chain in the candidate colour |
| CollectorModel.Collector.InternString | internal/gc/intern.go:46-65 | returns the one string object with those bytes, a new one only when there was none |
| CollectorModel.Collector.FindOrCreateUpval | internal/crescent/table.go:85-103 | one open upvalue per stack slot |
| CollectorModel.Collector.LeaveScope | internal/crescent/table.go:110-127 | exactly the thread's open upvalues at or above the level are closed, each over its slot's value; no upvalue's value changes |
| CollectorModel.Collector.Die | internal/crescent/coroutine.go:281-308 | a coroutine's death closes its upvalues, drops what it holds, changes no upvalue's value and keeps the invariant |
| CollectorModel.Collector.SetStopped | internal/gc/collector.go:291-300 | stopping or restarting leaves the polled flag as a safepoint would answer |
| CollectorModel.Collector.SetStressMode | internal/gc/collector.go:302-305 | so does stress mode |
| CollectorModel.Collector.SetGCPendingRef | internal/gc/collector.go:244-248 | so does installing the polled word |
| CollectorRuns.Run | internal/gc/collector.go:187-357 | any run of allocations, interned strings, new threads and their deaths, captured and closed upvalues, writes, stack and root changes, stops, restarts, stress mode, an installed polled word, safepoints and collections: each has just its effect, a safepoint collects when it is due, every field of every object and every root leads into the heap throughout, and no two strings have the same bytes |
| CollectorRuns.FreedUnreached | internal/gc/collector.go:308-357 | over any run, an object that is gone was freed by a collection at a moment when no chain of fields led to it from a root |
| Intern.StringMatches | internal/gc/intern.go:67-81 | true exactly for equal bytes |
| Intern.Find | internal/gc/intern.go:46-54 | finds the object with the bytes exactly when there is one |
| Intern.RemoveFrom | internal/gc/intern.go:84-98 | swap-removal takes out exactly that entry |
| Intern.Doubled | internal/gc/intern.go:101-113 | doubling re-files every string in the bucket of its hash, once |
| FramePacking.Word2Parts | internal/crescent/state.go:1533-1566 | every field of word 2 comes back on its own, tailDepth saturated at 31 |
| FramePacking.PackRoundTrip | internal/crescent/state.go:1518-1591 | packing into five words and reading back is the identity if and only if the fields are in range, nresults = -1 included |
| FrameStack.FrameThread.WriteCISeg | internal/crescent/state.go:1518-1528 | the frame reads back from its place and no other place changes |
| FrameStack.FrameThread.GrowCISeg | internal/crescent/state.go:1791-1817 | relocating the segment to the larger of double and need plus eight is invisible |
| FrameStack.FrameThread.Push | internal/crescent/frame.go:196-210 | a push on a plain stack, although the old top is flushed late and the segment may move |
| FrameStack.FrameThread.Pop | internal/crescent/frame.go:229-236 | a pop of a plain stack, giving the hot copy and reloading the caller |
| FrameStack.FrameThread.TruncateCI | internal/crescent/state.go:1765-1770 | truncation is the plain one if and only if a frame is dropped, none remains, or the packed top was not behind the hot copy |
| FrameStack.FrameThread.CiAt | internal/crescent/state.go:1638-1645 | reads frame d of the plain stack |
| FrameStack.FrameThread.EntryDepth | internal/crescent/call.go:98-106 | the innermost entry frame |
| FrameStack.Run | internal/crescent/state.go:1518-1817 | after any sequence of pushes, pops, changes of the top, truncations, mirrorings and relocations the frames are those of a plain stack |
| CallFrames.LuaThread.EnterLuaFrame | internal/crescent/frame.go:79-222 | entering a function: its frame is pushed, field by field as a call starts, with pc 0 and what it inherits; extra arguments end up below the base, declared ones and nils in the registers, slot by slot; the errors leave everything |
| CallFrames.Reshuffle | internal/crescent/frame.go:127-141 | the three moves put the extra arguments in front of the declared ones without overwriting |
| CallFrames.LuaThread.DoReturn | internal/crescent/call.go:205-267 | results replace the callee, padded or all; the frame is popped; top is the caller's logical top; true exactly when the loop's entry frame is left |
| CallFrames.LuaThread.DoTailCall | internal/crescent/call.go:177-201 | callee and arguments slide down and the new frame replaces the old one, field by field, inheriting results wanted, entry mark, host frames and tail depth plus one; the stack slot by slot |
| CallFrames.LuaThread.InsertCallSelf | internal/crescent/call.go:111-120 | the callee becomes the first argument, the others follow |
| CallFrames.LuaThread.DoVararg | internal/crescent/call.go:406-434 | VARARG copies what the frame's count says lies below the base, all or padded to a number |
| CallFrames.PaddedIs | internal/crescent/call.go:238-251 | the results as wanted are the first of those given, and nil past them |
| CallFrames.VarargsAreExtras | internal/crescent/frame.go:178-195 | in a frame just entered VARARG gives exactly the extra arguments if and only if there are fewer than 65536 |
| CallFrames.LostVarargs | internal/crescent/frame.go:178-195 | a call with 65536 extra arguments, entered and asked for all of them, delivers none |
| CoroutineRuns.Run | internal/crescent/coroutine.go:188-352 | over any sequence of resumes, yields, calls, tail calls, returns, re-entries, errors and collections every event leads to the one machine it must, activations, frames, points, C-call depth and signal included, with the outcome and states that follow; no resume finds its coroutine without a recorded point, a yield that gets through leaves its coroutine suspended at its top frame, no dead handle comes back, and the C-call depth never passes 224 |
| CoroutineRuns.DepthIsCount | internal/crescent/frame.go:40-57 | the C-call depth is the number of resumes, re-entries and host functions called by host code under way |
| CoroutineRuns.YieldSuspends | internal/crescent/call.go:46-58 | a granted yield and two steps up: the coroutine is suspended, its frames as they were, its point naming top frame, result slot and count, and its body's loop |
| CoroutineRuns.ResumesWhereItYielded | internal/crescent/coroutine.go:375-416 | whatever runs in between, the resume of a suspended coroutine goes on with the frames and at the point it had when it was suspended |
| CoroutineRuns.StatesAsDescribed | internal/crescent/coroutine.go:345-352 | in every state at most one coroutine runs and owns the running thread; the normal ones are exactly those on the resume chain; a suspended one that started has a recorded point that names its top frame |
| Coroutines.Machine.YieldArrives | internal/crescent/call.go:46-58 | yield itself records nothing; the sentinel passes the CALL or TAILCALL that made the call, which records frame, result slot, result count (all of them for a tail call) and loop, and the resume suspends on it: the point names the top frame |
| CoroutineStates.CallUnwoundOk | internal/crescent/call.go:158-173 | what doCall and doTailCall do with a signal keeps the invariant of the machine |
| CoroutineStates.ReentryUnwoundOk | internal/crescent/meta.go:381-415 | what a re-entry does with one, cutting frames back to where it entered and dropping a recorded point, keeps it too |
| CoroutineStates.SentinelMeetsNoBoundary | internal/crescent/meta.go:390-410 | since yield checks the C-call depth itself, no sentinel ever reaches a re-entry: the interception there has nothing to intercept |
| CoroutineStates.BoundaryIsBase | internal/crescent/coroutine.go:330-342 | comparing nCcalls with the base of the resume decides exactly whether an instruction of the coroutine's own loop called the host function that runs |
| CoroutineStates.Restored | internal/crescent/coroutine.go:217-235 | whatever ran in between, running thread, resume chain and C-call depth are as before |
| Coroutines.Machine.NewCoroutine | internal/crescent/coroutine.go:74-113 | a new handle, suspended, unlike any before; the argument error for anything but a Lua function |
| Coroutines.Machine.FindRunningCo | internal/crescent/coroutine.go:345-352 | the innermost coroutine of the resume chain, none on the main thread |
| Coroutines.Machine.Resume | internal/crescent/coroutine.go:188-308 | each outcome exactly when its condition holds; on success the resumed one runs, from its recorded point when it had started, and its resumer is normal; otherwise nothing but a stillborn coroutine's death changes |
| Coroutines.Machine.Continue | internal/crescent/coroutine.go:375-416 | a started coroutine goes on in the loop its point names, with its point taken; without a point there is only the error |
| Coroutines.Machine.Yield | internal/crescent/coroutine.go:330-342 | the sentinel exactly when an instruction of the coroutine's own loop called yield, else the boundary error |
| Coroutines.Machine.Unwind | internal/crescent/meta.go:381-415 | a signal goes one caller up: a call instruction records the sentinel's resume point, a re-entry cuts the frames back, drops a recorded point and hands on an error, a host re-entry hands on what it got, and a resume suspends or kills exactly the innermost coroutine, its resumer running again |
| Coroutines.Machine.Return | internal/crescent/call.go:205-267 | a return ends its loop exactly when the loop's entry frame goes, and with it the re-entry or the coroutine |
| Coroutines.Machine.Reenter | internal/crescent/frame.go:40-57 | a re-entry, a new loop or host call, is admitted if it makes the C-call depth at most 199, or 201 to 224; at exactly 200 it is the C stack overflow, from 225 on the error in error handling, and the errors change nothing |
| Coroutines.EntryDepthOf | internal/crescent/call.go:98-106 | the search from the top finds the innermost entry frame |
| Coroutines.Machine.Release | internal/crescent/coroutine.go:164-181 | unreached suspended or dead coroutines lose their records, others keep their state |
| TierMachine.RechecksBounded | internal/bridge/bridge.go:485-524 | rechecks are at most entries + 1 + (2 + threshold changes) times the code length |
| TierMachine.RunRechecks | internal/bridge/bridge.go:485-524 | the events of a run at which the backend is asked again about a prototype are at most its entries + 1 + (2 + threshold changes) times its code length |
| TierMachine.Bridge.FlooredOut | internal/bridge/bridge.go:573-588 | kept out exactly when shorter than the floor, the backend's or 10, and not exempted by this or an earlier answer, which is remembered |
| TierMachine.Bridge.Recheck | internal/bridge/bridge.go:440-456 | compilable exactly when no structural bit stands and the backend supports it |
| TierMachine.Bridge.ConsiderPromotion | internal/bridge/bridge.go:606-757 | the whole new profile: never moved off the main thread or once promoted or stuck, at most one recheck per entry, other prototypes untouched |
| TierMachine.Bridge.Decide | internal/bridge/bridge.go:656-756 | the exact tier, code and counter for each verdict: which of the three counters moves, with the forced retry window of 64 entries, the profit gate and compilation |
| TierMachine.Bridge.OnEnter | internal/bridge/bridge.go:551-565 | counts one entry while interpreted and switched on, triggers the decision past the threshold or when forced, and changes nothing else |
| TierMachine.Bridge.OnBackEdge | internal/bridge/bridge.go:485-524 | counts one passage of that back edge under the same rules |
| TierMachine.Bridge.SetTierEnabled | internal/bridge/bridge.go:836-841 | switched off, no code is found; switched on, exactly the promoted prototypes' code is |
| TierMachine.PromotedExactly | internal/bridge/bridge.go:573-757 | the condition under which a trigger promotes, both ways, in the fields and answers themselves |
| TierMachine.StuckExactly | internal/bridge/bridge.go:606-757 | the condition under which a trigger sticks a prototype to the interpreter, both ways |
| TierMachine.TriggerRecords | internal/bridge/bridge.go:573-650 | what a trigger leaves on record: the floor answer, asked for once and only where it matters, that the backend was asked in this entry, and what it said |
| TierMachine.EntryPromotes | internal/bridge/bridge.go:551-565 | an entry promotes exactly when tiers are on, it is forced or the count reaches the threshold, and the trigger's condition holds |
| TierMachine.JumpPromotes | internal/bridge/bridge.go:485-524 | a back edge promotes exactly likewise, by the count at its instruction; the first passage and the one at the threshold allow the questions again |
| TierMachine.EntryFrame | internal/bridge/bridge.go:551-565 | an entry counts one, nothing with tiers off or outside the interpreter, and below the threshold does nothing else |
| TierMachine.JumpFrame | internal/bridge/bridge.go:485-524 | a back edge counts one at its own instruction and none elsewhere, under the same switches |
| TierMachine.TriggeredFrame | internal/bridge/bridge.go:606-633 | a trigger counts nothing, leaves what was promoted or stuck, and off the main thread only asks about the floor |
| TierMachine.PassedFrame | internal/bridge/bridge.go:485-515 | a passage counts one at its own instruction and none elsewhere |
| TierMachine.PromotionHasCause | internal/bridge/bridge.go:485-757 | behind every promotion of a run is one event of that prototype, on the main thread, with tiers on, a backend that compiles it, and forced or past its threshold |
| TierMachine.Run | internal/bridge/bridge.go:485-757 | over any events and switch flips: the backend looks again at a prototype exactly at the events that call for it and within the bound; tiers are one-way, code is installed exactly for promoted prototypes and never for excluded ones, the three counters sum to the stuck ones, and the profiles follow from the events alone |
| CompilabilityWalk.Visitor.WalkBlock | internal/bridge/analyzer.go:306-313 | terminates; names stand afterwards for what the events it meets leave them standing for, on record is exactly what those put there, and it goes as deep as the literals among them nest; the signals among them are those of the block and of the functions it expands; of functions only those are expanded that are called, from the block or from each other; scopes are balanced |
| CompilabilityWalk.Visitor.WalkStmt | internal/bridge/analyzer.go:316-435 | the same for a statement; afterwards do and repeat have restored the names known, locals are bound and assigned names forgotten |
| CompilabilityWalk.Visitor.WalkExpr | internal/bridge/analyzer.go:438-474 | the same for an expression |
| CompilabilityWalk.Visitor.VisitCallee | internal/bridge/analyzer.go:491-560 | a called name that is a known local function is expanded, an unknown one recorded as an unknown call |
| CompilabilityWalk.Visitor.Expand | internal/bridge/analyzer.go:535-553 | afterwards the function is among the expanded, each at most once along a path of visitors, so recursion ends |
| CompilabilityWalk.Visitor.WalkFuncExpr | internal/bridge/analyzer.go:615-672 | a nested literal adds its depth and nothing else, and terminates because its visitor starts from a copy of what was expanded |
| CompilabilityWalk.Visitor.RegisterLocals | internal/bridge/analyzer.go:326-352 | what each local name is bound to afterwards, by its last position |
| CompilabilityWalk.Visitor.ForgetTargets | internal/bridge/analyzer.go:359-377 | forgets exactly the assigned names |
| CompilabilityWalk.AnalyzeProto | internal/bridge/analyzer.go:72-172 | a reason no backend lifts stands against a function if and only if it is vararg or past a size limit, it or a function pulled in shows a signal other than a method call, some name is called that stands for neither a local function nor a safe library function at that moment, or literals nest four deep; it is compilable if and only if none stands, no method call shows and the backend takes it; the functions pulled in can be listed so that each is called by the body or by one before it |
| CompilabilityWalk.InTurn | internal/bridge/analyzer.go:491-553 | functions no part of which is closed under calls but the whole can be listed so that each is called by the body or by one before it |
| WalkTraces.FlatJoins | internal/bridge/analyzer.go:491-553 | what is met on two pieces is what is met on the first, then what is met on the second from where it leaves names and expanded functions |
| WalkTraces.RecordedSome | internal/bridge/analyzer.go:491-560 | a signal is on record if and only if some event of the walk put it there |
| WalkTraces.NestedJoins | internal/bridge/analyzer.go:615-672 | literals nest m deep in two pieces if and only if they do in one of them |
| LuaSyntax.CallsShowingNothing | internal/bridge/analyzer.go:770-850 | the calls that show nothing are exactly those of the listed library functions |

## Left out

- Floating point: numbers are integers, -0, NaN or opaque values; NaN-boxing bits are not modelled.
- Integer widths: counters, generations, entry counts and table sizes are unbounded, except the 32-bit generation in `TableRuns.Run` and the packed frame fields; a hash size past 2^31 and a counter past 2^32 are not modelled.
- Inline-cache hits after the collector reuses a table's address: cached tables stay allocated, new ones are at addresses not in use.
- `PreallocateArray` (internal/crescent/alloc.go:59-89), which widens the array part without moving integer keys out of the hash part.
- Traversal while entries are cleared: deletion overwrites the key, so a traversal is claimed only while the program overwrites present keys.
- Finalizers: the list is empty throughout; resurrection and `__gc` calls are not modelled, nor the fixed bit, which nothing sets.
- The hash functions' bits: tables and the intern table work for any hash.
- Object sizes and thread segment bytes: any function of the object, and a parameter, in the pacing results; the call of `Compact` from `Collect` is not part of the collector model, its own contract is.
- The arena with an in-place backing, with a maximum that is no multiple of 8 bytes or above 2 GiB, and the compiled-off free-list debugging.
- Attached blocks of tables and threads in the collector: objects are whole there; that blocks of given sizes are returned and reissued soundly is the arena model's result.
- Values above a thread's top: the collector model takes each open upvalue's slot to lie below the top of its owner.
- The Go runtime's other entry points: errors and tracebacks, naming, the compile-time compatibility table `arg`, instruction budgets, native code tiers and the mirror words they share, host function slots.
- CallFrames.LuaThread.DoReturn: closing upvalues on return and on tail calls is in the collector model, not here.
- Coroutines.Machine.Resume: argument and result values and error texts are not carried; what happens to a frame's slots on resume is internal/crescent/coroutine.go:377-416 and not part of this model.
- CoroutineRuns.Run: the extra C-call an error handler runs under (internal/crescent/errors.go:363-380) is not an event.
- TierMachine.Bridge.Decide: the branch for code another State installed first is left out, as one Bridge serves one State here.
- CompilabilityWalk.Visitor.WalkBlock: an expanded body is walked in the caller's tables and may rebind any name it touches, so a name may stand for any function one of the walked bodies binds it to; lexical scoping is not claimed.
