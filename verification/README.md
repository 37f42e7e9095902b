# MulleObjC: a verified model of its autorelease pools, lock-free slots, name tables and ranges

MulleObjC is the root class library of the mulle-objc runtime. This project models five parts of it
in Dafny and proves what they are there for.

* **Autorelease pools.** Every thread has a stack of pools. A pool is a chain of fixed-size chunks
  with holes; it is wiped last in, first out, objects can be taken out of it, and an optional map
  counts the autoreleases of every object. `PoolSpec`, `PoolLedger` and `PoolStack` say as values what
  a chunk, a chain, the two counters and a stack of pools are, and prove what holds over every run of
  operations; `PoolEffects` says what each operation does to the objects in the pools, and
  `MemoryWords` how addresses lie in memory. `PointerArrays`, `AutoreleasePools` and `PoolConfigurations` are the classes that update
  all of it in place, proved against those values: linked chunks, slots, `used`, `count`, freeing.
* **Atomic words and atomic object slots.** `AtomicRegister` is the step system of any number of
  concurrent calls on one word; `AtomicIds` adds retain counts to it. `AtomicWords` and
  `AtomicIdSlots` are the retry loops themselves, run against an arbitrary finite schedule of other
  calls (`turns`), and proved to be runs of the step systems. So everything proved for all runs
  holds for the loops, and the loops end as soon as the others stop getting in the way.
* **Handing objects over.** `Handovers` is the step system of any number of threads that recycle and
  acquire objects through one pointer, `HandoverSlots` the two functions in the same manner.
* **Names of enums and options.** `EnumSpec` says what is printed and parsed, `EnumLaws` and
  `EnumTexts` what printing and parsing do on their own, `EnumRoundTrip` exactly when one undoes the
  other. `EnumTables` holds the loops. Bits of words are in `Bitwise`, and the numbers that words and
  numerals stand for in `Numerals`.
* **Ranges.** `Ranges` has the checks, the counting loop and combining, with 64-bit wrap-around, and
  says what they mean in unbounded integers. Machine words are in `Words`.

Assumptions: reads and compare-and-swaps of a word are single, sequentially consistent steps, and a
compare-and-swap fails only on a different value. `mulle_range_get_max` is not part of the repository;
it is taken as location plus length modulo 2^64, and `NSNotFound` is a parameter. The map from objects
to counts is a plain map. Objects are addresses, and releasing nil does nothing; the release functions
of the runtime are not part of the repository (see below for the one call where that matters). What `dealloc` and `copy` run is arbitrary: `copy` may
give any object, and a pool that is wiped may be handed any further objects by the ones that are
deallocated (`turns`). Memory that has been freed holds anything, so no proof survives a read of it.

## Where the code does not do what it is meant to

Each of these is a theorem that says when the property holds, and comes with an input for which it
fails.

* `count` of a chunk is the number of its live slots only as long as no block of objects was added:
  the block copy (`src/class/NSAutoreleasePool.m:422-459`) raises `used` and not `count`. Whatever is
  autoreleased into a pool that is counted right, the total stays right exactly if it fits 32 bits
  and no block among it is other than empty (`PoolStack.AddsAreCountedIff`, and for one block
  `PoolLedger.BlockIsMissedIff`). `PoolLedger.BlockCopyIsNotCounted` is the block of one.
* Selective removal lowers `count` for holes as well if nil is among the requested objects
  (`PoolLedger.ClearKeepsCountIff`, `PoolLedger.RemovalIsMissedIff`): add an object, remove it, remove
  nil, and the empty chunk counts 2^64 - 1 (`PoolStack.RemovingNilMiscounts`). The wrong `count` is
  stored before nil goes to the release function (`PointerArrays.ClearHit`). That call, at
  `src/mulle-objc-autoreleasepointerarray-private.h:317`, has an underscore, and line 264 of the file
  tells the functions without one from those that do not expect nil, so it probably does not return.
  With the map on, the same call first meets an object "out of nowhere" and trips the assertion,
  unless the map has counted as many nils (`PoolLedger.NilIsOutOfNowhere`,
  `PoolStack.RemovalIsAnsweredIff`).
* A constant object must not be put into a pool (`src/class/NSAutoreleasePool.m:501-512`). Only single
  autoreleases are tested for it: a constant has been pooled exactly as often as it came in through a
  block or an arrival (`PoolStack.ConstantsComeInBlocks`, with the block of
  `PoolStack.BlocksPoolConstants`).
* The loop that counts a block in the map goes word by word and ignores the distance between the
  objects (`src/class/NSAutoreleasePool.m:618-628`), so the map is only sure to be right for dense
  blocks and blocks of one (`PoolLedger.StepIsCountedIff`, with the buffer of
  `PoolLedger.StepMiscounts`). The pool can still be wiped without tripping the assertion exactly if
  the objects are among the words that were counted and the surplus there was
  (`PoolLedger.BlockSurvivesIff`).
* An update of an atomic slot with the value that is there already keeps the reference it took
  (`src/mulle-objc-atomicid.m:57-72`): the object lives for ever (`AtomicIds.NoSurplusIff`,
  `AtomicIds.SurplusIsForever`, `AtomicIds.StoringTwiceLeaves`).
* Releasing an atomic slot does not ask whether the slot owns its content
  (`src/mulle-objc-atomicid.m:84-100`). A slot that assigns leaves the retain count of an object alone
  exactly as long as no release finds the object there (`AtomicIds.AssignHoldsNothing`,
  `AtomicIds.ReleasingAssignedDrops`).
* Names are parsed by the first key that is a prefix (`EnumRoundTrip.ConstantsSurviveIffPrefixFree`).
  The table of the TAO strategies lists a key before a longer one
  (`src/protocol/MulleObjCRootObject.m:52-63`), so two of the eight strategies parse as others
  (`EnumRoundTrip.ShallowStrategiesDoNotSurvive`).
* Negative constants narrower than 64 bits are never found (`EnumRoundTrip.ConstantIsFoundIff`,
  `EnumRoundTrip.MinusOneHasNoName`).
* A range adjusted to a length need not lie within it (`Ranges.AdjustedIsValidIff`,
  `Ranges.AdjustedMayBeInvalid`).

Two places where a text disagrees with the code; the model follows the code.

* The comment at `src/mulle-objc-autoreleasepointerarray-private.h:93-99` promises chunks that fill
  8192 bytes together with the pool. The header of a chunk has three words and two are subtracted; the
  model has the 1018 slots that the code has.
* `dox/API_NSRange.md:86` says that ranges that do not overlap are not combined. The code combines
  ranges that touch, and `Ranges.CombineIsUnion` says so.

## Model

| member | source | states |
|---|---|---|
| PoolSpec.WipeChainReverses | src/mulle-objc-autoreleasepointerarray-private.h:224-278 | wiping visits the live entries of a whole chain in exact reverse of their insertion, across chunks and over holes |
| PoolSpec.WipeChainReleasesLive | src/mulle-objc-autoreleasepointerarray-private.h:224-278 | wiping releases exactly the live entries, each as often as it is there |
| PoolSpec.AddOneInserts | src/class/NSAutoreleasePool.m:315-362 | adding an object puts it behind everything inserted before, whether or not a new chunk is needed |
| PoolSpec.AddBlockRefinesAddEach | src/class/NSAutoreleasePool.m:422-459 | the block copy, run by run and chunk by chunk, leaves every slot exactly as adding the objects one at a time would, for every chain and request |
| PoolSpec.AddBlockInserts | src/class/NSAutoreleasePool.m:369-460 | the block copy inserts exactly the objects of the block, in order, behind what was there |
| PoolSpec.GatherSplits | src/class/NSAutoreleasePool.m:437-459 | reading a buffer of structs run by run reads the same objects as reading it in one go |
| PoolSpec.GatherAt | src/class/NSAutoreleasePool.m:437-459 | the object number i of a buffer is the word i steps further on, wherever in memory that is |
| MemoryWords.ReadUndoesWrite | src/class/NSAutoreleasePool.m:437-459 | reading an address gives back the one that was written there, byte by byte |
| PoolSpec.RemovalConserves | src/mulle-objc-autoreleasepointerarray-private.h:284-324 | what removal releases and what it leaves make up what was there, whatever is requested |
| PoolSpec.RemovalIsExact | src/mulle-objc-autoreleasepointerarray-private.h:284-324 | removal leaves no requested object in the chain, releases each one exactly as often as it occurred, and keeps every other one |
| PoolSpec.DrainReleasesAll | src/class/NSAutoreleasePool.m:925-943 | wiping a pool until nothing is left releases what was there and everything that deallocation autoreleases into it meanwhile |
| PoolSpec.DrainStep | src/class/NSAutoreleasePool.m:925-943 | what arrives during one pass is what the next pass wipes, the last one first |
| PoolSpec.Clear | src/mulle-objc-autoreleasepointerarray-private.h:296-322 | every slot that is not requested stays as and where it is, every other becomes a hole |
| PoolLedger.AddOneKeepsCounts | src/mulle-objc-autoreleasepointerarray-private.h:170-179 | after adding, every chunk's `count` falls short of its live slots by what was copied and what was miscounted, modulo 2^64 |
| PoolLedger.AddBlockKeepsCounts | src/class/NSAutoreleasePool.m:422-459 | the same after a block copy |
| PoolLedger.TakenSize | src/mulle-objc-autoreleasepointerarray-private.h:303-320 | `count` goes down by the objects that are cleared, and by the holes as well if nil is requested |
| PoolLedger.ClearKeepsCountIff | src/mulle-objc-autoreleasepointerarray-private.h:284-324 | removal leaves `count` as right as it was exactly if nil is not requested or the chunk has no hole |
| PoolLedger.ClearChainKeepsCounts | src/mulle-objc-autoreleasepointerarray-private.h:284-324 | after any removal `count` of every chunk falls short by what was copied and the holes that were counted off |
| PoolLedger.RunIsMissedIff | src/class/NSAutoreleasePool.m:437-459 | a chunk with the right `count` has the right one after a run was copied into it exactly if the run is empty |
| PoolLedger.BlockIsMissedIff | src/class/NSAutoreleasePool.m:422-459 | a reported total that is right stays right under a block exactly if the block is empty |
| PoolLedger.RemovalIsMissedIff | src/mulle-objc-autoreleasepointerarray-private.h:284-324 | a reported total that is right stays right under a removal exactly if nil is not requested or the holes are a multiple of 2^32, in practice none |
| PoolLedger.BlockCopyIsNotCounted | src/class/NSAutoreleasePool.m:422-459 | an object added as a block of one is live and not counted |
| PoolLedger.NoteEachRepresents | src/class/NSAutoreleasePool.m:618-628 | counting objects in the map adds their multiplicities to what the map holds |
| PoolLedger.ForgetRepresents | src/mulle-objc-autoreleasepointerarray-private.h:203-217 | taking a live object off the map never meets a zero, keeps all multiplicities right, and drops the key with the last one |
| PoolLedger.ForgetEachIff | src/mulle-objc-autoreleasepointerarray-private.h:203-217 | objects can be taken off a map one by one without meeting one out of nowhere exactly if it holds at least as many of each |
| PoolLedger.SurplusIff | src/mulle-objc-autoreleasepointerarray-private.h:203-217 | a map will do for what is live exactly if it holds at least its multiplicity for each object; the rest is a surplus |
| PoolLedger.NilIsOutOfNowhere | src/mulle-objc-autoreleasepointerarray-private.h:209-210 | taking a hole off a map that holds what is live trips the assertion |
| PoolLedger.BlockIsCountedIff | src/class/NSAutoreleasePool.m:618-630 | after a block the map is right exactly if the words it counted are the objects that were added |
| PoolLedger.BlockSurvivesIff | src/class/NSAutoreleasePool.m:618-630 | after a block, everything live can be released without tripping the assertion exactly if the objects are among the counted words and the surplus |
| PoolLedger.StepIsCountedIff | src/class/NSAutoreleasePool.m:618-630 | blocks of a given size and step are all counted right exactly if they are dense or have at most one object |
| PoolLedger.StepMiscounts | src/class/NSAutoreleasePool.m:618-630 | for every other size and step a buffer that is counted wrong |
| PoolStack.StepConserves | src/class/NSAutoreleasePool.m:498-1043 | every operation on the stack of pools, wiping in place included: handed over plus held plus released before is held plus released after |
| PoolStack.RunConserves | src/class/NSAutoreleasePool.m:498-1043 | the same over every run of operations, and every chunk counter stays in step |
| PoolStack.DrainedThreadHasReleasedAll | src/class/NSAutoreleasePool.m:946-995 | a thread that has popped all its pools has released exactly what it autoreleased, deallocation included, once per autorelease |
| PoolStack.AddsGoToInnermost | src/class/NSAutoreleasePool.m:498-643 | any run of autoreleases goes into the innermost pool, in order, and touches no other pool |
| PoolStack.ScopeReleasesInReverse | src/class/NSAutoreleasePool.m:892-995 | push, any autoreleases, pop: the stack is as before, and exactly what went into the scope has been released, the last one first, and then what its deallocation brought in, pass by pass |
| PoolStack.PlainRunsCountLive | src/mulle-objc-autoreleasepointerarray-private.h:118-339 | in every run without blocks and without requests for nil, `count` of every chunk is its number of live slots, within `used` and the capacity, and the reported total is the number of live autoreleases in 32 bits |
| PoolStack.AddsAreCountedIff | src/class/NSAutoreleasePool.m:498-643 | over any run of autoreleases, a reported total that is right stays right exactly if it fits 32 bits and every block is empty |
| PoolStack.ConstantsComeInBlocks | src/class/NSAutoreleasePool.m:498-643 | in every run, a constant is live or has been released just as often as it came in through a block or an arrival |
| PoolStack.BlocksPoolConstants | src/class/NSAutoreleasePool.m:586-631 | a constant that is a block of one is pooled; autoreleased on its own it is not |
| PoolStack.RemovalIsAnsweredIff | src/mulle-objc-autoreleasepointerarray-private.h:209-210 | removal from pools that the map has counted never meets an object out of nowhere exactly if the map holds as many nils as there are holes to take |
| PoolStack.RemovingNilMiscounts | src/mulle-objc-autoreleasepointerarray-private.h:309-315 | add an object, remove it, remove nil: when the hole is handed to release the pool is empty and its chunk counts 2^64 - 1 |
| PoolStack.ScanFindsLive | src/class/NSAutoreleasePool.m:722-765 | without the map, adding up the pools gives the number of autoreleases of an object, as long as no pool has 2^31 of them |
| PoolEffects.RemovalKeepsOrder | src/mulle-objc-autoreleasepointerarray-private.h:284-324 | removal leaves the other objects in the order of their insertion, and releases what it takes in reverse of it |
| PoolEffects.TakingFromInnermost | src/class/NSAutoreleasePool.m:836-845 | for every stack and request: no requested object is live in the innermost pool afterwards, every other one as often as before, each requested one has been released as often as it was live there, last one first, and the other pools are untouched |
| PoolEffects.TakingFromAll | src/class/NSAutoreleasePool.m:848-860 | the same for all pools, innermost pool first |
| PoolEffects.Pushing | src/class/NSAutoreleasePool.m:892-922 | a pool without objects is put in front of the others |
| PoolEffects.Autoreleasing | src/class/NSAutoreleasePool.m:498-557 | an object goes into the innermost pool behind all others, unless it is a constant or there is no pool, when nothing happens |
| PoolEffects.AutoreleasingMany | src/class/NSAutoreleasePool.m:586-643 | a block goes there in its order, constants or not |
| PoolEffects.WipingInnermost | src/class/NSAutoreleasePool.m:925-943 | wiping the innermost pool in place empties it, releases it last one first and then what arrives pass by pass, and leaves the others alone |
| PoolEffects.WipingOuter | src/class/NSAutoreleasePool.m:925-943 | wiping another pool empties it and releases it last one first; what its objects autorelease is inserted behind what is in the innermost pool |
| PoolEffects.Popping | src/class/NSAutoreleasePool.m:946-995 | popping releases the pools down to the given one, one after the other, each last one first and then what arrives in it, and leaves those further out |
| PoolEffects.AddingOpensIff | src/class/NSAutoreleasePool.m:315-362 | a chunk is opened exactly if there is none or the newest one has all its 1018 slots used |
| PointerArrays.Ledger.MapReleaseAndFree | src/mulle-objc-autoreleasepointerarray-private.h:203-217 | the assertion about objects out of nowhere holds for what the map holds, and exactly one of it goes |
| PointerArrays.Ledger.IncrementEach | src/class/NSAutoreleasePool.m:618-628 | the counting loop counts the first words of the buffer, one by one |
| PointerArrays.PointerArray.Create | src/mulle-objc-autoreleasepointerarray-private.h:118-145 | a new chunk is empty and linked to the one before |
| PointerArrays.PointerArray.IsFull | src/mulle-objc-autoreleasepointerarray-private.h:149-153 | full means that every slot has been used |
| PointerArrays.PointerArray.Add | src/mulle-objc-autoreleasepointerarray-private.h:170-179 | the object is in the next slot, counted, and every other slot is as before |
| PointerArrays.CanAddTo | src/mulle-objc-autoreleasepointerarray-private.h:156-160 | true exactly if there is a newest chunk with a free slot |
| PointerArrays.SpaceLeft | src/mulle-objc-autoreleasepointerarray-private.h:163-167 | the free slots of the newest chunk, none without a chunk |
| PointerArrays.CopyWords | src/class/NSAutoreleasePool.m:437-459 | the copying loop appends the gathered objects and leaves `count` alone |
| PointerArrays.Contains | src/mulle-objc-autoreleasepointerarray-private.h:182-200 | true exactly if some slot of the chain holds the object |
| PointerArrays.CountObject | src/mulle-objc-autoreleasepointerarray-private.h:343-363 | how many slots of the chain hold the object, modulo 2^32 |
| PointerArrays.CountAll | src/mulle-objc-autoreleasepointerarray-private.h:330-339 | the sum of the chunk counters, modulo 2^32 |
| PointerArrays.WipeOne | src/mulle-objc-autoreleasepointerarray-private.h:235-275 | one chunk is released last slot first and freed unless it is the static one; the rest of the chain is untouched |
| PointerArrays.ReleaseAndFree | src/mulle-objc-autoreleasepointerarray-private.h:224-278 | wiping a linked chain releases its live objects in order, frees every chunk but the static one, once and never to be read again, and keeps the map right |
| PointerArrays.ClearHit | src/mulle-objc-autoreleasepointerarray-private.h:313-316 | before the object of a hit is released its slot is a hole, `count` is one less, and the map has one less of it |
| PointerArrays.TakeSlot | src/mulle-objc-autoreleasepointerarray-private.h:299-321 | a slot whose content is requested, nil included, becomes a hole, is counted off and its object released; any other slot stays |
| PointerArrays.TakeSlots | src/mulle-objc-autoreleasepointerarray-private.h:296-322 | removal from one chunk, last slot first, is the removal function |
| PointerArrays.ReleaseObjects | src/mulle-objc-autoreleasepointerarray-private.h:284-324 | removal from a linked chain, whatever is requested, leaves exactly the cleared chain, releases what it took in order, keeps the links, and takes off the map what it took |
| AutoreleasePools.AutoreleasePool.Create | src/class/NSAutoreleasePool.m:892-922 | a new pool has one empty chunk and the pool around it as its owner |
| AutoreleasePools.AutoreleasePool.AddObject | src/class/NSAutoreleasePool.m:315-362 | a new chunk is put in front if need be, and the object is added to the newest one |
| AutoreleasePools.AutoreleasePool.AddRun | src/class/NSAutoreleasePool.m:422-459 | one turn of the block copy makes progress and leaves the same result to be reached |
| AutoreleasePools.AutoreleasePool.AddObjects | src/class/NSAutoreleasePool.m:369-460 | the loop over the block ends with the block copied as specified |
| AutoreleasePools.AutoreleasePool.TakeObjects | src/class/NSAutoreleasePool.m:817-886 | removal from the chunks of one pool; nothing happens to a pool without storage |
| AutoreleasePools.AutoreleasePool.ContainsObject | src/class/NSAutoreleasePool.m:674-716 | whether some slot of the pool holds the object |
| AutoreleasePools.AutoreleasePool.CountObject | src/class/NSAutoreleasePool.m:722-765 | how many slots of the pool hold the object, modulo 2^32 |
| AutoreleasePools.AutoreleasePool.Count | src/class/NSAutoreleasePool.m:768-809 | the sum of the chunk counters of the pool |
| AutoreleasePools.AutoreleasePool.WipePass | src/class/NSAutoreleasePool.m:930-942 | one pass detaches the chunks, releases what they hold and has then freed every chunk that the pool ever had but for the static one; what is autoreleased meanwhile goes into new chunks |
| AutoreleasePools.AutoreleasePool.ReleaseAll | src/class/NSAutoreleasePool.m:925-943 | the loop ends with the pool without storage, however often deallocation autoreleases into it; everything has been released, pass by pass in order, and every chunk that the pool ever had is freed but for the static one, those opened meanwhile included |
| PoolConfigurations.PoolConfiguration.Push | src/class/NSAutoreleasePool.m:892-922 | a new empty pool becomes the innermost one |
| PoolConfigurations.PoolConfiguration.Autorelease | src/class/NSAutoreleasePool.m:498-557 | one step of the stack: nothing for constants and without a pool, otherwise the object is in the innermost pool and in the map |
| PoolConfigurations.PoolConfiguration.AutoreleaseMany | src/class/NSAutoreleasePool.m:586-643 | one step of the stack, for any step between objects in bytes; the map counts the words at the beginning, and will do exactly as long as the objects are among these and the surplus |
| PoolConfigurations.PoolConfiguration.TakeFromInnermost | src/class/NSAutoreleasePool.m:817-886 | one step of the stack, with the map kept up, for any request; with the map on, for any under which the assertion holds; holes that are taken come off the nils that the map has |
| PoolConfigurations.PoolConfiguration.TakeFromAll | src/class/NSAutoreleasePool.m:817-886 | one step of the stack: what is requested is taken out of every pool, with the map kept up, under the same condition for all pools together |
| PoolConfigurations.PoolConfiguration.ReleaseAllInnermost | src/class/NSAutoreleasePool.m:925-943 | the innermost pool is emptied pass by pass, every chunk it ever had freed but for the static one, the other pools untouched |
| PoolConfigurations.PoolConfiguration.ReleaseAllPoolObjects | src/class/NSAutoreleasePool.m:1035-1043 | wiping any pool of the stack in place is one step of it, and frees every chunk that pool ever had but for the static one; what deallocation autoreleases goes into the innermost pool |
| PoolConfigurations.PoolConfiguration.PopOne | src/class/NSAutoreleasePool.m:957-993 | one turn of the popping loop is a pop of the innermost pool, which is freed with every chunk it ever had, those opened while it is wiped included |
| PoolConfigurations.PoolConfiguration.Pop | src/class/NSAutoreleasePool.m:946-995 | pops down to and including the given pool, innermost first, and frees every popped pool and every chunk it ever had; a pool that is not on the stack costs all pools before the program is aborted |
| PoolConfigurations.PoolConfiguration.CountObject | src/class/NSAutoreleasePool.m:722-765 | with the map, how often the object is autoreleased, and its surplus; without, what scanning the pools adds up to |
| PoolConfigurations.PoolConfiguration.ContainsObject | src/class/NSAutoreleasePool.m:674-716 | whether the object is in some pool of the thread |
| AtomicRegister.StepKeepsInv | src/MulleObjCIntegralType.h:82-150 | every step of every call keeps the log a serial history of the slot, each call in it once, with its failures bounded by slot changes |
| AtomicRegister.EveryRunIsSerial | src/MulleObjCIntegralType.h:73-150 | in every interleaving each call takes effect in one atomic step between its invocation and its return, and returns what a plain register executing the calls in that order held before it, early returns included |
| AtomicRegister.EffectsRespectRealTime | src/MulleObjCIntegralType.h:82-150 | a call that has returned before another is made takes effect before it |
| AtomicRegister.LegalIsSerial | src/MulleObjCIntegralType.h:104-150 | the slot is the fold of the operations, masked-or included, over the order of their effects |
| AtomicRegister.EffectsSetBits | src/MulleObjCIntegralType.h:82-150 | in every interleaving each effect leaves in the slot, bit by bit, what its operation says of the value it saw: an update the new bits, an or those and the old ones, a masked-or those and the old ones that the mask has |
| AtomicRegister.FailuresAreOthersProgress | src/MulleObjCIntegralType.h:88-101 | a call's compare-and-swaps fail in a run at most as often as other calls change the slot between its invocation and its effect, which comes before its return |
| AtomicRegister.NoOrIsLost | src/MulleObjCIntegralType.h:129-150 | with or calls only, the slot is the initial bits and the bits of exactly the calls that have taken effect |
| AtomicWords.AtomicWord.GetValue | src/MulleObjCIntegralType.h:73-79 | the read is a run of the step system |
| AtomicWords.MaskedOrOf | src/MulleObjCIntegralType.h:115 | a bit of the new value is set exactly if it is to be set, or was set and the mask has it |
| AtomicWords.OrOf | src/MulleObjCIntegralType.h:139 | a bit of the new value is set exactly if it is to be set, or was set |
| AtomicWords.AtomicWord.UpdateValue | src/MulleObjCIntegralType.h:82-101 | the retry loop, under any interference, is a run of the step system in which this call returns what it returned |
| AtomicWords.AtomicWord.MaskedOrValue | src/MulleObjCIntegralType.h:104-126 | the same for masked-or |
| AtomicWords.AtomicWord.OrValue | src/MulleObjCIntegralType.h:129-150 | the same for or |
| AtomicIds.RetainCountsBalance | src/mulle-objc-atomicid.m:50-101 | in every interleaving every retain count is exactly owners outside, pending autoreleases, the slot, updates under way, displaced references not handed back, and the surplus of same-value updates, less what was given up by a release that held nothing, which happens to slots that assign only; every displaced reference is handed back once |
| AtomicIds.HeldObjectsAreAlive | src/mulle-objc-atomicid.m:50-101 | an object in the slot, or carried by a call to it or from it, has a retain count |
| AtomicIds.AssignHoldsNothing | src/mulle-objc-atomicid.m:56-78 | a slot that assigns has no part in the retain count of an object exactly as long as no release finds the object in the slot; each one that does drops a reference nobody gave it |
| AtomicIds.ReleasingAssignedDrops | src/mulle-objc-atomicid.m:84-100 | assign an object with one owner, release the slot: the owner is still there and the retain count is zero |
| AtomicIds.NoSurplusIff | src/mulle-objc-atomicid.m:56-72 | there is no surplus reference to an object exactly if no update found it in the slot already |
| AtomicIds.SurplusIsForever | src/mulle-objc-atomicid.m:71-72 | an object with a surplus reference is never freed, whatever happens later |
| AtomicIds.StoringTwiceLeaves | src/mulle-objc-atomicid.m:71-72 | an object stored twice has a retain count of three, one owner and one slot |
| AtomicIds.EveryRunIsARegisterRun | src/mulle-objc-atomicid.m:66-100 | seen from the slot every run is a run of the atomic register, so effects are serial and retries bounded |
| AtomicIdSlots.AtomicIdSlot.Update | src/mulle-objc-atomicid.m:50-81 | the retry loop, with others stepping in anywhere, also before the autorelease, is a run of the step system in which this call has returned what it displaced |
| AtomicIdSlots.AtomicIdSlot.Finish | src/mulle-objc-atomicid.m:76-78 | an update autoreleases what it displaced, unless the slot assigns, and a release releases it in every mode, once; a call that displaced nothing does neither |
| AtomicIdSlots.AtomicIdSlot.Release | src/mulle-objc-atomicid.m:84-100 | the same as for the update, for emptying the slot |
| Handovers.EveryObjectIsInOnePlace | src/function/MulleObjCProperty.h:106-173 | in every interleaving an object is accessible to one thread, in transit in one thread, or in the slot, and its affinity names just the thread that has access, if its strategy touches the affinity at all |
| Handovers.OwnerChecksPass | src/protocol/MulleObjCRootObject.m:311-405 | the checks of the owner hold: a thread relinquishes what is its own, and gains what has no thread |
| Handovers.RefusedComesBack | src/function/MulleObjCProperty.h:163-171 | in every interleaving an object whose recycling failed is with the thread that tried, and comes back to it |
| Handovers.NextKeepsAffinity | src/protocol/MulleObjCRootObject.m:318-450 | gaining and relinquishing access keep affinity and access in step |
| Handovers.FixedAffinityStays | src/protocol/MulleObjCRootObject.m:318-450 | in every interleaving, an object whose strategy leaves the affinity alone stays with the thread that created it, whoever relinquishes or gains it |
| Handovers.TheSlotIsABuffer | src/function/MulleObjCProperty.h:106-143 | the calls behave like those on a buffer for one object: a recycle fails only when it is full, an acquire is empty-handed only when it is empty, and objects come out once, in the order in which they went in |
| Handovers.EveryResultIsLogged | src/function/MulleObjCProperty.h:106-173 | every finished call is in the log exactly once, between its call and its return, and returned what the buffer answers there |
| Handovers.EventsRespectRealTime | src/function/MulleObjCProperty.h:106-173 | a call that has returned before another is made comes before it in the log |
| Handovers.RetriesAreOthersProgress | src/function/MulleObjCProperty.h:115-124 | the compare-and-swaps of an acquire, the one that finds nothing included, fail at most as often as other threads change the slot between its call and its effect; for those under way and those that have returned, and the failures are all those that happen in the run |
| HandoverSlots.HandoverSlot.RecycleObject | src/function/MulleObjCProperty.h:151-173 | success leaves the object in the slot without a thread; failure leaves it with the thread that tried, which has what it had; nil is fine; objects whose strategy leaves the affinity alone keep theirs |
| HandoverSlots.HandoverSlot.AcquireObject | src/function/MulleObjCProperty.h:106-133 | the acquired object belongs to the thread; coming back empty-handed means that the slot is empty; objects whose strategy leaves the affinity alone keep theirs |
| EnumLaws.PrintingConserves | src/mulle-objc-enum.m:99-133 | the printed values and the hexadecimal remainder add up to the bits, in unbounded integers, and join to them |
| EnumLaws.PrintedAreWithin | src/mulle-objc-enum.m:113-124 | every printed row is a row of the table, not zero, and wholly contained in the bits |
| EnumLaws.PrintedAreDisjoint | src/mulle-objc-enum.m:117-124 | no bit is printed twice |
| EnumLaws.PrintingIsMaximal | src/mulle-objc-enum.m:113-133 | no row is wholly contained in what remains |
| EnumLaws.ParsingIsTokenizing | src/mulle-objc-enum.m:203-256 | strict parsing ends exactly on strings that are first-matching keys one after the other and then a rest, where a bar behind a key is dropped exactly if something follows it, and the rest is empty, which is success, or begins with no key; it returns the bits of all these keys |
| EnumLaws.NonEmptyKeysEnd | src/mulle-objc-enum.m:203-256 | without empty keys parsing ends on every string |
| EnumTexts.PrintedIff | src/mulle-objc-enum.m:113-124 | a row is printed, behind those before it, exactly if it is not zero and all its bits are there and in no row printed before |
| EnumTexts.OptionsTextIs | src/mulle-objc-enum.m:99-138 | the text is the keys of the printed rows with bars between them and then the remaining bits in hexadecimal, or the key of the last row for zero, or "0" |
| EnumTexts.EnumTextIs | src/mulle-objc-enum.m:183-200 | a value is printed as the key of the first row that has it, or spelled as "0" or in hexadecimal without leading zeros |
| EnumTexts.ParsedEnumIs | src/mulle-objc-enum.m:279-341 | a name is the constant of the first row whose key it begins with, if the rows before have keys |
| EnumTexts.Leniently | src/mulle-objc-enum.m:259-341 | digits in front are read as the number they stand for modulo 2^64, whatever follows |
| EnumTexts.LenientOptionsAre | src/mulle-objc-enum.m:259-275 | anything else is the bits of its keys, or zero if something is left over |
| Numerals.HexSpells | src/mulle-objc-enum.m:128-133 | hexadecimal is "0x" and the digits of the number, in lower case, without leading zeros |
| Numerals.ValueIsRemainder | src/mulle-objc-enum.m:51-80 | the value of a row is its constant modulo 2^8, 2^16, 2^32 or 2^64, as an unbounded number |
| EnumRoundTrip.StrictRoundTripIff | src/mulle-objc-enum.m:84-256 | for tables of keys that are there, not empty, without bars, and no prefixes of later ones: strictly parsing what was printed gives the bits back if all have names, where no bits need a row for zero; and if no key begins with a digit, only then |
| EnumRoundTrip.NumbersMayBeKeys | src/mulle-objc-enum.m:84-256 | a table with a key that looks like a number, and bits without a name that come back |
| EnumRoundTrip.LenientRoundTripIff | src/mulle-objc-enum.m:84-275 | for tables of identifiers none of which is a prefix of a later one: leniently parsing what was printed gives the bits back exactly if all have names |
| EnumRoundTrip.RowsSurviveIffPrefixFree | src/mulle-objc-enum.m:84-256 | for options with bits of their own and keys that are there, not empty and without bars: all rows survive printing and parsing exactly if no earlier key is a prefix of a later one |
| EnumRoundTrip.ConstantSurvivesIff | src/mulle-objc-enum.m:51-322 | a printed constant parses back exactly if the first key that is a prefix of its name has the same value |
| EnumRoundTrip.ConstantsSurviveIffPrefixFree | src/mulle-objc-enum.m:51-322 | for different values: all constants parse back exactly if no earlier key is a prefix of a later one |
| EnumRoundTrip.LenientEnumRoundTripIff | src/mulle-objc-enum.m:183-341 | leniently parsing a printed value gives it back exactly if it is in the table or zero |
| EnumRoundTrip.ConstantIsFoundIff | src/mulle-objc-enum.m:51-80 | a row's constant is found exactly if it is what its bytes say when extended with zeros |
| EnumRoundTrip.MinusOneHasNoName | src/mulle-objc-enum.m:183-200 | -1 in a table of bytes is printed as a number |
| EnumRoundTrip.ShallowStrategiesDoNotSurvive | src/protocol/MulleObjCRootObject.m:52-63 | of the eight TAO strategies exactly the two shallow ones do not survive printing and parsing |
| EnumRoundTrip.ShallowStrategiesParseAsDeep | src/protocol/MulleObjCRootObject.m:52-63 | the names of the two shallow strategies parse as the strategies they extend |
| EnumTables.TableSearch | src/mulle-objc-enum.m:51-80 | the key of the first row with the value |
| EnumTables.OptionsUTF8String | src/mulle-objc-enum.m:84-138 | the printing loop writes the decomposition, then the remainder, or the key of the last row for zero |
| EnumTables.PrefixLength | src/mulle-objc-enum.m:146-179 | the length of the longest prefix that all keys share; no key is read behind its terminator |
| EnumTables.EnumUTF8String | src/mulle-objc-enum.m:183-200 | the name of the value, or the value in hexadecimal |
| EnumTables.ParseOptionsStrict | src/mulle-objc-enum.m:203-256 | the parsing loop computes the specified result whenever it ends; what it has matched so far is in the value even if it fails |
| EnumTables.ParseOptionsUTF8String | src/mulle-objc-enum.m:259-275 | digits are read as a number, anything else strictly, failure is zero |
| EnumTables.ParseEnumStrict | src/mulle-objc-enum.m:279-322 | the value of the first row whose key is a prefix; on failure the value is untouched |
| EnumTables.ParseEnumUTF8String | src/mulle-objc-enum.m:325-341 | digits are read as a number, anything else strictly, failure is zero |
| Ranges.ValidateAgainstLength | src/protocol/MulleObjCException.h:133-156 | accepts a range exactly if it ends within the length in unbounded integers, and the full range exactly if it begins within it; the full range is made to end at the length, any other stays as it is |
| Ranges.AdjustForLength | src/protocol/MulleObjCException.h:160-183 | keeps what validation accepts, and empties everything else in place |
| Ranges.AdjustedIsValidIff | src/protocol/MulleObjCException.h:160-183 | an adjusted range is valid exactly if it begins within the length; adjusting twice is adjusting once |
| Ranges.AdjustedMayBeInvalid | src/protocol/MulleObjCException.h:160-183 | an adjusted range that is not valid |
| Ranges.ForEach | src/struct/NSRange.h:250-255 | the loop visits the locations of the range in order, and none of a range that wraps around |
| Ranges.AcceptedRangesAreVisited | src/struct/NSRange.h:250-255 | a validated range is visited completely, all locations below the length |
| Ranges.VisitsAllIff | src/struct/NSRange.h:250-255 | as many locations are visited as the range is long exactly if it does not wrap around, or is empty |
| Ranges.CombineIsHull | src/struct/NSRange.c:45-70 | without a gap the result begins with the first range and ends with the last to end |
| Ranges.CombineIsUnion | src/struct/NSRange.c:45-70 | without a gap the result covers exactly the locations of both; it is not-found exactly for a gap, or two empty ranges that are not-found themselves |
| Ranges.CombineIsCommutative | src/struct/NSRange.c:45-70 | the order of the ranges does not matter |
| Ranges.CombineIsAssociative | src/struct/NSRange.c:45-70 | as long as neighbours touch it does not matter which are combined first |
| Ranges.CombinableIff | src/struct/NSRange.h:223-226 | ranges are combinable exactly if there is no gap and not both are empty |

## Left out

- AutoreleasePools.AutoreleasePool.ReleaseAll: what deallocation does to the pools other than autoreleasing objects, such as pushing and popping pools or removing objects while a pool is wiped; what arrives is added to the pool at the end of the pass, which the rest of the pass cannot tell.
- PoolConfigurations.PoolConfiguration.ReleaseAllPoolObjects: pools of other threads.
- PoolConfigurations.PoolConfiguration.TakeFromInnermost: with the map on, a request for which the source stops in its assertion; PoolStack.RemovalIsAnsweredIff says which these are.
- PoolConfigurations.PoolConfiguration.TakeFromAll: the same.
- PointerArrays.TakeSlot: goes on after nil has been released, although the function that does it in the source may not return.
- PoolStack.RemovingNilMiscounts: the same.
- PoolConfigurations.PoolConfiguration.Pop: the model ends where the program is aborted; debug-only checks and tracing are not modelled.
- Weak memory ordering, spurious failures of a compare-and-swap, and slots whose updates mix retain, copy and assign.
- AtomicWords.AtomicWord.UpdateValue: ends because the schedule of the others is finite; under endless interference a call need not return, which is what lock-free means.
- NSIntegerAtomicUpdate: the code of the unsigned update with a signed type, covered by the model of that one.
- Handovers.Next: access is relinquished in one step, with the retain and the removal from the pools that go with it; objects are never deallocated.
- EnumSpec.DecimalWord: `atoll` of a number that does not fit is undefined in C and wraps around in the model.
- EnumTables.ParseOptionsStrict: strings on which the loop of the source never ends, because an empty key matches over and over.
- EnumTables.ParseOptionsUTF8String: the same.
- Widths of table entries other than 1, 2, 4 and 8 bytes, for which the source aborts.
- EnumRoundTrip.RowsSurviveIffPrefixFree: is about options whose rows have bits of their own; for other tables the prefix condition is sufficient but not necessary.
- Ranges.Combine: ranges that wrap around themselves, whose maximum the library behind `NSRangeGetMax` does not define.
- Walking and dumping a chain, maximum object limits for debugging, tracing, universe and thread set-up, method search, zones, exceptions, and all classes whose implementation is not in the repository.
