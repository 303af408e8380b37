# Argobots in Dafny

A model of the parts of the Argobots user-level threading runtime whose correctness rests on an argument
over many steps or many calls, with proofs about it. Sequential code that works in place is modelled by
classes, arrays and loops proved against specification functions. Code that several threads execute at
the same time is modelled as a state machine, one atomic operation, memory access or critical section per
step, under sequential consistency and for any number of participants; a theorem about a `Trace` holds
for the last state of every finite run, and so for every reachable state.

| file | what it models |
|---|---|
| `StencilGrid`, `StencilBuffers`, `StencilSequential` | the grid of the stencil examples, the invariant of the two shared arrays, the sequential reference |
| `Futures`, `StencilFutures` | futures, and the stencil whose blocks synchronise through two alternating futures each |
| `StencilYield` | the stencil with progress flags |
| `StencilDivConq` | the divide-and-conquer tiling |
| `StackDump` | stopping all execution streams to print the stacks |
| `UnitTable`, `UnitReaders` | the unit-to-thread hash table, in sequence and with lock-free readers |
| `AffinityGrammar`, `AffinityParser`, `AffinityPrinter`, `AffinityScanner`, `AllocList` | affinity strings, their parser, printing and parsing back, and the parser's allocation list |
| `XstreamContext`, `RankList`, `MainSched` | the life cycle of an execution stream |
| `StealPool`, `Futex`, `XstreamBarrier` | the work-stealing pool, the one-shot futex, the barrier |
| `Traces`, `Counting`, `Options` | runs of state machines, sums over participants, and optional values |

## What the code does not do

Five properties that one might expect fail, and what holds instead is proved for all inputs.

- Main scheduler replacement (src/stream.c:1889-1977, src/thread.c:3308-3344). `p_replace_sched`,
  `p_replace_waiter` and the bit `ABTI_SCHED_REQ_REPLACE` of a scheduler stay set when it has been replaced.
  That breaks "suspended callers are resumed exactly once" on three routes. A running stream that installs
  the scheduler again replaces it at once and resumes its old waiter a second time (`MainSched.TakeTurns`,
  and from every state `MainSched.Xstream.ReinstallResumesTwice`). A terminated stream that is given the
  scheduler and revived loses the request but not the waiter (src/stream.c:365), whom the next replacement
  resumes a second time (`MainSched.SwapAndRevive`, and from every state `ReviveResumesTwice`). And a pending
  scheduler is not marked as used, so an automatic one that is passed twice is freed and then installed
  (`MainSched.PassTwice`, `PendingTwiceIsFreed`). A call keeps the invariant, and with it the exactly-once
  property, if and only if the scheduler it passes is `Clean`.
- `xstream_change_rank` (src/stream.c:2114-2144) leaves a stale backward link when a stream moves to the
  head of the list from behind (`RankList.StaleLink`); the list stays well formed if and only if that does
  not happen, and it never does while the primary stream is first with rank 0.
- The worker of an execution stream asserts its initial state without the lock
  (src/arch/abtd_stream.c:13). The assertion fails if and only if a join begins before
  (`XstreamContext.EarlyJoinFails`, `AssertionsHoldIffNoEarlyJoin`). `xstream_join`
  (src/stream.c:1867-1872) joins the main scheduler's ULT first, which rules it out.
- The documentation of `ABT_info_trigger_print_all_thread_stacks` (src/info.c:977-978) says that
  calling it several times updates the old values. The code drops a trigger that finds another one in
  progress: two triggers are enough, whatever they pass (`StackDump.SecondTriggerIsDropped`), and a trigger
  that has returned has had its values served if and only if it found the flag UNSET in its compare-and-swap
  (`StackDump.UpdatesIffWonAtUnset`). That the four values are updated atomically, as the documentation also
  says, holds (`StackDump.ValuesOfOneTrigger`).
- Linux futex (src/arch/abtd_futex.c:60-66): `FUTEX_WAKE` may be called with the address of a futex whose
  owner has already returned (`LinuxFutex.WakeMayComeLate`). Nothing is read or written there.

Further notes on code and documentation: the parser also accepts repeated signs and refuses a num of
1024 * 1024 or more, which the documented grammar does not mention; `ABTD_futex_resume` does not block when
nobody waits, although src/include/abtd_futex.h:49-50 says so; `read_args` checks the number of
blocks where it means the block size (examples/stencil/stencil_helper.h:74-80), so the stencil theorems
also cover a block size of 0.

## Model

| member | source | states |
|---|---|---|
| `StencilGrid.Grid.Index` | examples/stencil/stencil_helper.h:15-17 | `INDEX` of every stored cell lies inside the array |
| `StencilGrid.IndexInjective` | examples/stencil/stencil_helper.h:15-17 | `INDEX` never maps two cells to the same element |
| `StencilGrid.BlockOf` | examples/stencil/stencil_depend_future.c:171-172 | the blocks that get a ULT cover every interior cell |
| `StencilGrid.BlocksDisjoint` | examples/stencil/stencil_depend_future.c:74-75 | no cell belongs to two blocks |
| `StencilGrid.ValuesDrift` | examples/stencil/stencil_helper.h:146-153 | an update that copies one neighbour moves every value one cell an iteration in that neighbour's direction, so each argument comes from the neighbour it is named after |
| `StencilGrid.ValuesStay` | examples/stencil/stencil_helper.h:146-154 | an update that copies the cell itself changes nothing |
| `StencilSequential.Answer` | examples/stencil/stencil_helper.h:142-158 | the two swapped arrays compute the iterate that the recursive reference `Ref` defines, at every cell |
| `StencilSequential.Sweep` | examples/stencil/stencil_helper.h:146-154 | one sweep turns an array showing iterate t into one showing t + 1 and keeps the border |
| `StencilSequential.ValidateValues` | examples/stencil/stencil_helper.h:135-175 | 0 exactly when every interior value is within the threshold of the sequential answer, although counting stops at ten failures |
| `StencilSequential.CloseMeans` | examples/stencil/stencil_helper.h:25 | the threshold is a millionth |
| `StencilBuffers.KernelReads` | examples/stencil/stencil_depend_future.c:76-81 | with neighbours at most one iteration away the five cells that an update reads all hold iterate t |
| `StencilBuffers.WriteKeepsBuffers` | examples/stencil/stencil_depend_future.c:72-83 | a single-cell write keeps the invariant that says which iterate each element of both arrays holds |
| `StencilBuffers.AllFinished` | examples/stencil/stencil_depend_future.c:223-230 | the array that main ends up with holds the sequential answer |
| `Futures.Future.constructor` | src/futures.c:61-91 | a new future is empty |
| `Futures.Future.Set` | src/futures.c:270-304 | fails exactly on a full future, else stores the value behind the others, and the last value runs the callback on all of them and wakes every waiter |
| `Futures.Future.Wait` | src/futures.c:172-201 | suspends the caller exactly when the future is not ready |
| `Futures.Future.Test` | src/futures.c:229-240 | readiness |
| `Futures.Future.Reset` | src/futures.c:337-349 | empties the future |
| `Futures.WaitersConserved` | src/futures.c:172-349 | over any legal calls every suspended caller is woken exactly once or still waits, in order; the future holds the arguments of the first sets since the last reset, as many as it has compartments; and it is ready exactly when there were that many |
| `Futures.CallsAnswer` | src/futures.c:172-304 | over any legal calls, a set succeeds, and a wait suspends, exactly while fewer sets than compartments have come since the last reset; a set wakes nobody unless it fills the last compartment, and then everybody |
| `StencilFutures.StepKeeps` | examples/stencil/stencil_depend_future.c:66-102 | every step of every block keeps the invariant over arrays, futures and ULTs |
| `StencilFutures.EveryInterleavingIsSequential` | examples/stencil/stencil_depend_future.c:50-230 | for every grid, block size, iteration count and interleaving the result is the sequential answer at every cell |
| `StencilFutures.FinishedIterates` | examples/stencil/stencil_depend_future.c:66-102 | in every reachable state a block's finished iterate is the sequential one |
| `StencilFutures.NothingOverwrittenEarly` | examples/stencil/stencil_depend_future.c:66-102 | no cell is overwritten while a neighbour still needs it |
| `StencilFutures.FuturesLoseNothing` | examples/stencil/stencil_depend_future.c:66-101 | each counter is the number of neighbours that signalled the matching iteration, no set fails, and each reset finds a full future without waiters or later signals |
| `StencilFutures.NeverStuck` | examples/stencil/stencil_depend_future.c:66-102 | some block can step until all have returned |
| `StencilFutures.RunsTerminate` | examples/stencil/stencil_depend_future.c:66-102 | the length of every run is bounded by a number known at its start |
| `StencilFutures.RunsFinish` | examples/stencil/stencil_depend_future.c:66-102 | every run can be completed until all blocks have returned |
| `StencilFutures.CompleteRunExists` | examples/stencil/stencil_depend_future.c:50-230 | for every valid grid there is a run in which all blocks have returned |
| `StencilYield.EveryInterleavingIsSequential` | examples/stencil/stencil_depend_yield.c:53-96 | the same main result with progress flags |
| `StencilYield.NothingOverwrittenEarly` | examples/stencil/stencil_depend_yield.c:64-95 | no cell is overwritten while a neighbour still needs it |
| `StencilYield.FlagsClose` | examples/stencil/stencil_depend_yield.c:65-90 | a flag is its block's completed iterations, and neighbours differ by at most one |
| `StencilYield.NeverStuck` | examples/stencil/stencil_depend_yield.c:64-76 | some unfinished block can always proceed, not only yield |
| `StencilYield.StepsLeftDrops` | examples/stencil/stencil_depend_yield.c:64-95 | every step but a yield brings the end closer, and a yield changes nothing |
| `StencilYield.CompletionsCount` | examples/stencil/stencil_depend_yield.c:89-90 | the remaining iterations fall with each store to a flag and with no other step |
| `StencilYield.RunsFinish` | examples/stencil/stencil_depend_yield.c:64-95 | every run can be completed until all blocks have returned |
| `StencilYield.CompleteRunExists` | examples/stencil/stencil_depend_yield.c:53-96 | for every valid grid there is a run in which all blocks have returned |
| `StencilDivConq.ChildIsSmaller` | examples/stencil/stencil_forkjoin_divconq.c:83-113 | a child that is created is smaller, so the recursion ends |
| `StencilDivConq.LeavesCoverOnce` | examples/stencil/stencil_forkjoin_divconq.c:63-130 | each block of a region is a leaf exactly once, nothing else is |
| `StencilDivConq.LeavesDisjoint` | examples/stencil/stencil_forkjoin_divconq.c:66-75 | different leaves never write the same element |
| `StencilDivConq.AnyOrderIsOneIteration` | examples/stencil/stencil_forkjoin_divconq.c:63-130 | any order of the leaves' single-cell writes is one sequential iteration |
| `StencilDivConq.Thread` | examples/stencil/stencil_forkjoin_divconq.c:52-131 | the recursion writes the update of exactly the cells of its region |
| `StencilDivConq.Leaf` | examples/stencil/stencil_forkjoin_divconq.c:63-75 | the loop nest of a leaf writes exactly its block |
| `StencilDivConq.Run` | examples/stencil/stencil_forkjoin_divconq.c:170-187 | the program computes the sequential answer |
| `StackDump.StepKeeps` | src/info.c:1036-1106 | every step of a stream or a trigger keeps the protocol's invariant, if all timeouts are negative |
| `StackDump.StopTheWorld` | src/info.c:1036-1106 | what both assertions ask for holds wherever they are reached, the counter counts the streams inside and is 0 while the flag is UNSET or INITIALIZE, one main stream, all others wait while it prints, one stream resets |
| `StackDump.EveryRoundPrintsOnce` | src/info.c:1074-1104 | the output of a run is that of the winning triggers in order, each once with its own arguments, with one reset each |
| `StackDump.EachTriggerWinsOnce` | src/info.c:1348-1370 | no trigger wins twice |
| `StackDump.WinsIffAtUnset` | src/info.c:1353-1358 | over any run, the accepted triggers are exactly those whose compare-and-swap found the flag UNSET |
| `StackDump.UpdatesIffWonAtUnset` | src/info.c:1348-1370 | a trigger that has returned has had its values put out, or has them waiting, if and only if it won like that |
| `StackDump.ValuesOfOneTrigger` | src/info.c:1360-1370 | while the request stands, all four values are those of the trigger that won last |
| `StackDump.SecondTriggerIsDropped` | src/info.c:1353-1358 | a run in which two triggers return and the values are those of the first, for any two requests |
| `StackDump.RoundsEnd` | src/info.c:1036-1106 | every step of a stream brings the round nearer to its end and losing triggers do not delay it |
| `StackDump.NeverStuck` | src/info.c:1036-1106 | while a request is pending somebody can take such a step |
| `StackDump.RoundFinishes` | src/info.c:1036-1106 | every run extends to one with the flag UNSET in which all that was accepted has been put out once, in order |
| `StackDump.OneRequestPrints` | src/info.c:1074-1104 | a single request on any number of streams puts out its stacks on its own stream and then its callback, unless NULL, with false and its own argument, and nothing else |
| `UnitTable.MapAgrees` | src/unit.c:230-258 | reuse, growth and failure keep the bucket in agreement with a map |
| `UnitTable.MapFillsFirst` | src/unit.c:230-258 | mapping fails exactly when every node is in use and malloc fails; it takes the first empty node, and a new one at the head only when there is none |
| `UnitTable.UnmapAgrees` | src/unit.c:268-279 | emptying a node keeps the bucket in agreement with a map |
| `UnitTable.TableRefinesMap` | src/unit.c:204-301 | over any legal calls the table agrees with a map, holds no unit twice, and each bucket has as many nodes as units were ever mapped there at once |
| `UnitTable.LookupIsMap` | src/unit.c:282-301 | the first matching slot of the unit's bucket is its mapping, and there is none for an unmapped unit |
| `UnitTable.EmptyMapMeansFree` | src/unit.c:204-219 | the finalize assertion holds exactly when everything has been unmapped |
| `UnitTable.HashSpreads` | src/unit.c:127-140 | each of the three bytes that the hash adds up reaches every bucket |
| `UnitTable.Bucket.Map` | src/unit.c:230-258 | the linked list changes as the slot sequence says; fails exactly when every node is in use and malloc fails |
| `UnitTable.Bucket.Unmap` | src/unit.c:268-279 | the linked list changes as the slot sequence says |
| `UnitTable.Bucket.Get` | src/unit.c:293-300 | returns the thread of the first matching node |
| `UnitTable.Table.constructor` | src/unit.c:193-202 | an empty table |
| `UnitTable.Table.Map` | src/unit.c:222-259 | refines mapping in the plain map; fails exactly when every node of the bucket is in use and malloc fails, changing nothing |
| `UnitTable.Table.Unmap` | src/unit.c:261-280 | refines removal from the plain map |
| `UnitTable.Table.Get` | src/unit.c:282-301 | returns what the plain map holds |
| `UnitTable.Table.Finalize` | src/unit.c:204-220 | succeeds exactly on an unlocked table whose units are all unmapped, and frees every node exactly once |
| `UnitReaders.StepKeeps` | src/unit.c:222-301 | every memory access of mapping, unmapping and looking up keeps the invariant of a bucket |
| `UnitReaders.NeverNull` | src/unit.c:268-298 | no pointer that is about to be followed is null, and only the lock holder is inside |
| `UnitReaders.LookupIsRight` | src/unit.c:282-301 | whenever a lookup returns, what it returns is the thread that its unit is mapped to at that moment, whatever happens to other units |
| `UnitReaders.LookupCompletes` | src/unit.c:282-301 | a mapped unit can be looked up at any time, and the lookup returns its thread without anybody else having to move |
| `UnitReaders.LookupTerminates` | src/unit.c:294-300 | each step of a lookup shortens its distance, and no other step changes it |
| `UnitReaders.CallCompletes` | src/unit.c:222-280 | every call of map or unmap can be completed, whoever holds the lock, and leaves its unit mapped to the thread that was passed, or not mapped |
| `UnitReaders.AllocatesOnlyWhenFull` | src/unit.c:230-253 | a node is allocated, or mapping fails, only while every node of the list is in use |
| `UnitReaders.MappingMayFail` | src/unit.c:243-250 | when malloc fails, mapping fails, its unit is not mapped, and the list and everybody else stay as they are |
| `AffinityGrammar.RampAt` | src/arch/abtd_affinity_parser.c:107-109 | id number i of an interval is id + stride * i |
| `AffinityGrammar.CopiesAt` | src/arch/abtd_affinity_parser.c:135-147 | copy number i of a list is shifted by stride * i |
| `AffinityGrammar.IntMeans` | src/arch/abtd_affinity_parser.c:158-192 | a value is negative exactly when the number of minus signs is odd |
| `AffinityGrammar.IntervalMeans` | src/arch/abtd_affinity_parser.c:238-262 | id alone, num ids in a row when no stride is given, or num ids that are stride apart |
| `AffinityGrammar.ListsMean` | src/arch/abtd_affinity_parser.c:296-317 | the list alone, num copies each one further when no stride is given, or num copies each stride further |
| `AffinityParser.IntAccepts` | src/arch/abtd_affinity_parser.c:158-192 | every integer token is consumed whole, with its value |
| `AffinityParser.IntToken` | src/arch/abtd_affinity_parser.c:158-192 | whatever is consumed is such a token |
| `AffinityParser.ParsesExactlyTheGrammar` | src/arch/abtd_affinity_parser.c:227-334 | parsing succeeds exactly on the strings of the grammar and returns the expansion of their tree |
| `AffinityParser.BlanksDoNotMatter` | src/arch/abtd_affinity.c:7-9 | blanks before tokens and at the end do not change the result |
| `AffinityParser.LeadingBlankIsSkipped` | src/arch/abtd_affinity_parser.c:152-155 | a space, tab, carriage return or newline in front changes nothing |
| `AffinityParser.OtherCharactersFail` | src/arch/abtd_affinity_parser.c:284-334 | any other character that is no digit, sign or brace in front makes the parse fail |
| `AffinityPrinter.PrintedIsParsed` | src/arch/abtd_affinity_parser.c:227-334 | id lists with nums and strides, printed in the shortest form and parsed, give every id of every list, by an expansion that does not use the grammar |
| `AffinityPrinter.PlainIsParsed` | src/arch/abtd_affinity_parser.c:284-334 | any nonempty lists of ids printed as {a,b},{c} and parsed come back |
| `AffinityPrinter.NumIsLimited` | src/arch/abtd_affinity_parser.c:9 | a num is accepted exactly from 1 to 1048575 |
| `AffinityScanner.ConsumeInt` | src/arch/abtd_affinity_parser.c:158-192 | the loop agrees with the scanner, leaves the index alone on failure, and never passes the terminator |
| `AffinityScanner.ConsumePint` | src/arch/abtd_affinity_parser.c:195-206 | the same for a positive integer |
| `AffinityScanner.ConsumeSymbol` | src/arch/abtd_affinity_parser.c:209-225 | the same for a symbol |
| `AffinityScanner.ParseEsIdList` | src/arch/abtd_affinity_parser.c:227-282 | builds the id list of the parse in live memory, fails with it, or runs out of memory |
| `AffinityScanner.ParseList` | src/arch/abtd_affinity_parser.c:284-334 | builds the lists of the parse in live memory, fails with it, or runs out of memory, and always returns |
| `AffinityScanner.AffinityListCreate` | src/arch/abtd_affinity_parser.c:336-354 | the same for a C string or none, whatever the allocator does: out of memory exactly when an allocation failed; after any failure every block has been freed exactly once; after success everything handed out is alive and hangs on the saved head |
| `AffinityScanner.AffinityListFree` | src/arch/abtd_affinity_parser.c:356-361 | from the saved head, every block that the parse ever allocated has been freed exactly once |
| `AffinityScanner.IdList.Add` | src/arch/abtd_affinity_parser.c:97-112 | appends num ids to the array in place, or runs out of memory and changes nothing |
| `AffinityScanner.List.Add` | src/arch/abtd_affinity_parser.c:121-150 | appends num lists, the first of which is the base itself, behind those that were there, or runs out of memory and adds none; every list in it keeps its memory when the array moves |
| `AllocList.List.Calloc` | src/arch/abtd_affinity_parser.c:26-45 | appends a live block, or changes nothing |
| `AllocList.List.Realloc` | src/arch/abtd_affinity_parser.c:51-77 | a moved block takes the place of the old one, which has been freed once |
| `AllocList.List.ReallocAny` | src/arch/abtd_affinity_parser.c:47-78 | both cases of list_realloc keep the list of exactly the live blocks |
| `AllocList.FreeAll` | src/arch/abtd_affinity_parser.c:80-88 | afterwards every block ever allocated has been freed exactly once |
| `AllocList.ParseAndFree` | src/arch/abtd_affinity_parser.c:22-88 | so it is after any sequence of allocations, reallocations and failures |
| `XstreamContext.StepKeeps` | src/arch/abtd_stream.c:8-136 | every critical section, signal and spurious wakeup keeps the invariant |
| `XstreamContext.NoLostWakeup` | src/arch/abtd_stream.c:30-32 | an unsignalled sleeper still has to wait |
| `XstreamContext.SignalsHaveOneReceiver` | src/arch/abtd_stream.c:23-25 | on the shared condition variable a signal can only reach the intended side, which is there |
| `XstreamContext.JoinMeansCompleted` | src/arch/abtd_stream.c:112-136 | after join, completed runs are 1 + revives; the worker exits only after a terminate request |
| `XstreamContext.AssertionsHoldIffNoEarlyJoin` | src/arch/abtd_stream.c:13 | state assertions fail exactly when a join began before the worker's first look |
| `XstreamContext.OtherAssertionsHold` | src/arch/abtd_stream.c:90-136 | what the assertions of join, revive and free ask for holds wherever they are reached |
| `XstreamContext.GuardedAssertionsHold` | src/stream.c:1867-1872 | joined the way xstream_join does, no state assertion fails |
| `XstreamContext.EarlyJoinFails` | src/arch/abtd_stream.c:13 | a run of two steps in which the first assertion fails |
| `XstreamContext.CallsReturn` | src/arch/abtd_stream.c:90-126 | no step moves the return of a pending join or free away |
| `XstreamContext.CallsAdvance` | src/arch/abtd_stream.c:90-126 | some step always brings it nearer |
| `XstreamContext.ThreadRuns` | src/arch/abtd_stream.c:8-50 | once created or revived, the worker gets to call thread_f and to complete it, joined or not |
| `XstreamContext.CanBeRevived` | src/arch/abtd_stream.c:90-126 | for every n there is a run with n revivals and n + 1 completed runs, joined and without a failed assertion |
| `XstreamContext.CanBeFreed` | src/arch/abtd_stream.c:112-136 | after which the stream can be freed |
| `XstreamContext.SpuriousWakeup` | src/arch/abtd_stream.c:30-32 | a sleeper on either side that wakes up for no reason goes back to sleep |
| `RankList.List.Search` | src/stream.c:2014-2026 | finds the place of a rank in the sorted list |
| `RankList.List.LinkIn` | src/stream.c:2028-2053 | all links are right afterwards, except that a new head keeps its old backward link |
| `RankList.List.Remove` | src/stream.c:2057-2069 | unlinks a stream, whose own links stay |
| `RankList.List.Attach` | src/stream.c:1979-2053 | a stream with an unused rank is linked in at its place, and the bound exceeds every rank in the list |
| `RankList.List.FindUnused` | src/stream.c:2077-2090 | the least unused rank |
| `RankList.List.IsUnused` | src/stream.c:2091-2103 | stopping early at a larger rank does not miss a taken one |
| `RankList.List.SetNewRank` | src/stream.c:2072-2111 | an automatic rank is the least unused one, a given rank fails exactly when taken, the list stays sorted and well formed |
| `RankList.List.ChangeRank` | src/stream.c:2114-2144 | fails exactly when the rank is taken; the list stays well formed exactly when the stream does not move to the head from behind |
| `RankList.List.ReturnRank` | src/stream.c:2146-2155 | removes the stream and keeps the list well formed |
| `RankList.List.SetRank` | src/stream.c:737-757 | with the primary stream first the list always stays well formed, and the error codes are exact |
| `RankList.StaleLink` | src/stream.c:2041-2053 | two streams and one change of rank that break the list without a primary stream |
| `MainSched.Xstream.SetMainSched` | src/stream.c:1924-1976 | the last request is the pending one, an overwritten waiter is resumed, and the state stays valid exactly when the scheduler was clean |
| `MainSched.Xstream.Install` | src/thread.c:3324-3343 | the pending scheduler takes over the stream's ULT, the old one loses it and is freed exactly if automatic, the waiter is resumed once |
| `MainSched.Xstream.AfterRun` | src/thread.c:3321-3361 | replaces exactly on request, frees the old scheduler exactly if automatic, touches nobody but the two schedulers and the waiter; from a valid state no caller stays suspended and nothing freed is used |
| `MainSched.Xstream.Overwrite` | src/stream.c:1948-1963 | drops the replacement the main scheduler carries: from a valid state nobody stays suspended, from an old replacement its waiter is resumed more often than suspended |
| `MainSched.Xstream.SetMainSchedTerminated` | src/stream.c:1901-1923 | swaps the scheduler of a terminated stream; afterwards nobody is suspended, and the state is valid exactly when the scheduler was clean |
| `MainSched.Xstream.Revive` | src/stream.c:347-383 | clears the request, also an old one, and the state is valid afterwards exactly when no replacement is left behind |
| `MainSched.Xstream.DiscardAndFree` | src/include/abti_sched.h:43-57 | the ULT is freed; an automatic scheduler is freed, any other only loses its ULT |
| `MainSched.Xstream.ReinstallResumesTwice` | src/thread.c:3339-3340 | from every valid state, installing a scheduler that was replaced before resumes a caller too often |
| `MainSched.Xstream.ReviveResumesTwice` | src/stream.c:365 | from every valid terminated state, so does giving it such a scheduler, reviving it and replacing that scheduler |
| `MainSched.Xstream.PendingTwiceIsFreed` | src/stream.c:1948-1966 | passing a pending automatic scheduler again installs freed memory |
| `MainSched.TakeTurns` | src/stream.c:1889-1977 | two schedulers taking turns are enough for the first, from a new stream |
| `MainSched.SwapAndRevive` | src/stream.c:1901-1923 | a run from a new stream that shows the second |
| `MainSched.PassTwice` | src/stream.c:1948-1966 | two callers that pass the same automatic scheduler to a new stream are enough for the third |
| `StealPool.EndsByContext` | examples/scheduling/sched_and_pool_user.c:280-337 | each of the four create and revive bits alone sends a unit to the head and without them it goes to the tail; a pop takes the tail exactly with the secondary-owner bit |
| `StealPool.OwnerTakesNewest` | examples/scheduling/sched_and_pool_user.c:236-240 | the owner pops the thread it created last |
| `StealPool.ThiefTakesReturned` | examples/scheduling/sched_and_pool_user.c:236-240 | a thief pops the unit that came back last |
| `StealPool.OwnerAndThiefCommute` | examples/scheduling/sched_and_pool_user.c:280-306 | with two units or more their order does not matter |
| `StealPool.NothingLostOrDoubled` | examples/scheduling/sched_and_pool_user.c:280-337 | over any operations, what was pushed is in the pool or was popped, exactly as often |
| `StealPool.Pool.IsEmpty` | examples/scheduling/sched_and_pool_user.c:273-278 | emptiness of the deque |
| `StealPool.Pool.PopUnit` | examples/scheduling/sched_and_pool_user.c:280-306 | refines the deque although outer links are left over |
| `StealPool.Pool.PushUnit` | examples/scheduling/sched_and_pool_user.c:308-337 | refines the deque for units with any old links |
| `LinuxFutex.Refines` | src/arch/abtd_futex.c:50-66 | every step is a step of the one-bit specification |
| `LinuxFutex.Safe` | src/arch/abtd_futex.c:50-66 | the assertion holds, nobody sleeps once resume returned, the futex exists while resume still uses its memory |
| `LinuxFutex.SuspendReturns` | src/arch/abtd_futex.c:50-58 | once the bit is set suspend only gets nearer to its return |
| `LinuxFutex.NeverStuck` | src/arch/abtd_futex.c:50-66 | resume can always step, and once it has returned suspend can, both nearer to their return |
| `LinuxFutex.BothReturn` | src/arch/abtd_futex.c:50-66 | every run extends to one in which both have returned |
| `LinuxFutex.WaiterSleeps` | src/arch/abtd_futex.c:50-58 | a waiter that comes first falls asleep |
| `LinuxFutex.SpuriousWakeup` | src/arch/abtd_futex.c:50-58 | a sleeper that wakes up for no reason goes back to sleep |
| `LinuxFutex.WakeMayComeLate` | src/arch/abtd_futex.c:60-66 | the final wake may name a futex that is gone |
| `PthreadFutex.Refines` | src/arch/abtd_futex.c:191-239 | every step is a step of the same specification |
| `PthreadFutex.Safe` | src/arch/abtd_futex.c:191-239 | nobody sleeps once resume returned, the waiter's object is alive while resume works on it, the destroyed mutex is free |
| `PthreadFutex.StepsShrink` | src/arch/abtd_futex.c:191-239 | once the bit is set each step brings one side nearer to its return |
| `PthreadFutex.NeverStuck` | src/arch/abtd_futex.c:191-239 | until both have returned one of them can step |
| `PthreadFutex.BothReturn` | src/arch/abtd_futex.c:191-239 | every run extends to one in which both have returned |
| `PthreadFutex.WaiterSleeps` | src/arch/abtd_futex.c:191-216 | a waiter that comes first falls asleep with its mutex free |
| `PthreadFutex.SpuriousWakeup` | src/arch/abtd_futex.c:191-216 | a sleeper that wakes up for no reason goes back to sleep |
| `XstreamBarrier.NobodyLeavesEarly` | src/stream_barrier.c:153-178 | nobody returns from its n-th wait before all arrived for the n-th time; counts differ by at most one |
| `XstreamBarrier.TagIsNeverMissed` | src/stream_barrier.c:163-178 | the tag is the number of complete generations modulo 2^63, and a spinner sees a new tag exactly when its generation is complete, wherever it wraps |
| `XstreamBarrier.NeverStuck` | src/stream_barrier.c:153-178 | somebody can always go on |
| `XstreamBarrier.GenerationCompletes` | src/stream_barrier.c:153-178 | every run extends to one in which everybody has returned from the current generation |
| `XstreamBarrier.OneWaiterNeverSpins` | src/stream_barrier.c:153 | over any run of a single waiter nobody ever spins, the barrier is never touched, and each step is a completed wait |

## Left out

- Weak memory: steps are sequentially consistent, so acquire, release and relaxed accesses are the same.
- Floating point: the five-point update is an arbitrary function on reals, and the random initial values are arbitrary.
- Integer overflow: ids, ranks, counters and sizes are unbounded, except the 63-bit barrier tag and the 64-bit unit handles.
- Code behind waitlists, pools, context switches and memory pools: suspending, resuming and allocating are taken at the contract stated where they are called.
- `StencilFutures.StepKeeps`: futures are used through their specification functions in the protocol; `Futures.Future` proves that the object refines them.
- `StencilDivConq.Thread`: children are executed in creation order; that no order matters is `StencilDivConq.AnyOrderIsOneIteration`.
- `StackDump.StepKeeps`: covers negative timeouts; the other case is documented as unreliable, and the number of execution streams is fixed.
- `UnitReaders.StepKeeps`: one bucket, because buckets share nothing; the nodes are values at addresses.
- `AffinityScanner.ParseList`: the outer list is a sequence whose memory is accounted for like the rest; sizes are not, beyond being zero or not.
- `XstreamContext.StepKeeps`: one controller that revives and frees only what it has joined, as the interface demands; creation failures are not modelled.
- `RankList.List.SetNewRank`: the lock and the warning about too many streams are not modelled.
- `MainSched.Xstream.SetMainSched`: one stream whose pending scheduler nobody else uses or frees; failing to move the caller to the new scheduler's pool returns before anything has changed.
- `StealPool.Pool.PushUnit`: a unit is in at most one pool at a time, as the runtime guarantees.
- `XstreamBarrier.NobodyLeavesEarly`: the variant on Pthreads barriers only calls the system.
- The ULT join handshake (src/thread.c:3148-3267), because the exit side of the target is in headers that are not part of this model.
- The futex for several waiters with a timeout (src/arch/abtd_futex.c:117-172), reader-writer locks and barriers for ULTs, printing, queries and affinity system calls.
