# Verified models of the cFS test library and table tools

This project models four parts of the cFS-demo repository in Dafny and proves what they promise:

* **The stub table** of the unit test library (`osal/ut_assert/src/utstubs.c`): two hundred slots searched by
  open addressing, with a high-water mark that bounds every search, and on it call counters, forced and
  deferred return codes, data buffers, hooks with their per-call context, and "call once" records. Its clients
  are the message queue emulation (`osapi-utstub-queue.c`) and the fake object IDs (`utstub-helpers.c`).
* **The test runner** (`utlist.c`, `uttest.c`, `utassert.c`): tagged rings of nodes that are merged, walked while
  they grow, and destroyed; and the counters behind the exit code.
* **The table CRC** (`tools/tblCRCTool/cfe_ts_crc.c`): a byte-table CRC-16/ARC in signed 16-bit arithmetic,
  chained over the chunks of a file.
* **The table converter** (`tools/elf2cfetbl/elf2cfetbl.c`): from 32 or 64 bit, little or big endian ELF objects
  to table files with a fixed big-endian layout. Record formats follow chapter 4, "Object Files", of the
  System V ABI.

Code that changes things in place is modelled in place: `StubMachine.Machine` is the table as one array,
`UtList` works on linked nodes, `UtTest` walks them, `UtAssert.Counters` and `ObjIds.Objects` are arrays of
counters and bitmap bytes, and `ElfConverter` swaps bytes in buffers. Each method is proved to do what a
function on values says, and the laws are proved about those functions.

How the files build on each other:

| files | subject |
|---|---|
| `Options` | a value that may be missing |
| `CrcReference`, `Crc16`, `CrcErrors`, `CrcPeriod` | the CRC: bit-serial definition, the program, error detection, the order of x |
| `StubTable` | the table and its operations as functions of a state |
| `StubInvariant`, `StubMemory` | what every operation keeps: search bound, ownership of memory |
| `StubOrder`, `StubEffects` | what a search sees, the order of additions, what an operation leaves alone |
| `StubCalls`, `StubCodes`, `StubAdditions`, `StubReturns`, `StubBuffers`, `StubConservation`, `StubFilling` | laws over whole runs |
| `StubMachine` | the table in place |
| `QueueStubs`, `QueueStatus`, `QueueRuns`, `QueueOrder`, `QueueHoles`, `QueueOvertakes`, `QueueMachine` | the queue emulation: one call, what it returns, whole runs, their order, what decides it before a call, how it breaks, in place |
| `UtList`, `UtAssert`, `TestOrder`, `TestEntry`, `UtTest` | rings, the counters, the order of execution, what an entry does, the runner |
| `ObjIds` | fake object IDs |
| `ElfBytes`, `ElfFile`, `ElfRecords`, `ElfHeaders`, `ElfSelection`, `ElfConverter`, `ElfEncoding`, `ElfWriter`, `ElfCrc` | the converter: bytes, what a file says, its records as C structures, the headers it writes, what it selects, the program, all encodings, a round trip, the CRC of its output |

Results that differ from what the documentation says:

* `utstubs.h:129-130` and `:149-150` promise that deferred codes and data buffers are used in the order they
  were added. That holds for an addition exactly when no unused slot lies before the last live entry of the
  same kind and key in its probe sequence (`StubOrder.AddIsLastIffPacked`), and over a run exactly when whatever
  an addition finds behind an unused slot is equal to it (`StubAdditions.AddsInOrderIff`). Every run meets that
  in which nothing live at one addition is gone at the next (`StubAdditions.UndisturbedRunsAddInOrder`).
  `StubAdditions.LaterCodeOvertakes` is a run that does not, and `StubBuffers.RefillOvertakes` shows that a
  buffer added right after another was used up is always delivered before all that were waiting. For the same
  reason the queue emulation is a bag in general, and its messages come out in the order they were put if and
  only if every put finds no hole in the chain of its queue (`QueueOrder.FifoIffPacked`), which the table before
  the put decides (`QueueHoles.PutIsLastIff`). A get leaves such a hole (`QueueOvertakes.PutAfterGetOvertakes`),
  and so does a deferred code of OS_QueuePut that comes due, even when all puts come before the gets
  (`QueueOvertakes.DeferredCodeOvertakes`).
* An entry that a test registers while the tests run is not executed when the head of its group has been
  passed (`TestOrder.RunIsExact`); its node is freed all the same (`UtTest.UtTestRun`).
* An assertion that fails as ABORT, or a message of that type, stops the program at once
  (`osal/ut_assert/src/utbsp.c:191-194` and `osal/src/bsp/generic-linux/src/bsp_start.c:118-121`): no later entry
  is executed, nothing is destroyed and there is no exit code, although the totals would make it a success
  (`UtAssert.AbortIsNoExit`, `UtTest.AbortingProgram`). A program gets to its exit code if and only if it reports
  no ABORT (`UtAssert.CompletesIffNoneFells`, `UtTest.Application`). The type is passed on as one byte, so a case
  type of 257 stops the program too, and is not counted under any type.
* The exit code of a test program can miss failures once a 32-bit counter wraps, in one segment
  (`UtAssert.WrapHidesSegment`) or over several (`UtAssert.WrapHidesFailures`).
* The case totals do not add up to the assertion total when an assertion fails with a number that is no case
  type (`UtAssert.TotalsAddUpIffReal`).
* A symbol whose name is the wanted object name and one more character is taken for the object whatever that
  character is (`ElfSelection.ObjectIsFirst`). The comment at `elf2cfetbl.c:2350` promises it only for characters
  that cannot be printed, but the test looks at the zero byte after the name.
* The CRC cannot see an error in two bits that are a multiple of 32767 apart (`CrcPeriod.TwoBitErrors`).

## Model

| member | source | states |
|---|---|---|
| `Crc16.CalculateCRC` | tools/tblCRCTool/cfe_ts_crc.c:63-102 | for every byte string and seed, the low 16 bits are those of the bit-serial CRC and the upper 16 bits are the sign extension of bit 15 |
| `Crc16.TableStepIsByteFeed` | tools/tblCRCTool/cfe_ts_crc.c:70-99 | one step with the 256-entry table, signed shifts included, equals eight bit-serial steps |
| `CrcReference.FeedIsDivision` | tools/tblCRCTool/cfe_ts_crc.c:25-29 | the bit-serial reflected register is, read backwards, the remainder of long division by the polynomial 0x8005 |
| `Crc16.CrcOfFile` | tools/tblCRCTool/cfe_ts_crc.c:121-153 | for every pattern of short reads, the reported size and CRC are those of exactly the bytes after the 116 header bytes; an error is reported exactly when a read fails |
| `CrcErrors.CollisionIffZeroSyndrome` | tools/tblCRCTool/cfe_ts_crc.c:70-99 | two messages of one length have the same CRC if and only if their error pattern alone leaves a zero register |
| `CrcErrors.ParityOfCrc` | tools/tblCRCTool/cfe_ts_crc.c:70-99 | the parity of the CRC is that of message bits and seed together |
| `CrcErrors.OddErrorsAreDetected` | tools/tblCRCTool/cfe_ts_crc.c:70-99 | every error in an odd number of bits changes the CRC, for messages of any length |
| `CrcErrors.BurstsAreDetected` | tools/tblCRCTool/cfe_ts_crc.c:70-99 | every error within 16 consecutive bits, at any bit offset, changes the CRC |
| `CrcErrors.ResidueIsZeroIffCrcAppended` | tools/tblCRCTool/cfe_ts_crc.c:70-99 | two bytes after a message give CRC zero if and only if they are its CRC, low byte first |
| `CrcPeriod.OrderOfX` | tools/tblCRCTool/cfe_ts_crc.c:25-29 | shifting n times is the identity on the register holding one if and only if n is a multiple of 32767 |
| `CrcPeriod.TwoBitErrors` | tools/tblCRCTool/cfe_ts_crc.c:70-99 | an error in two bits is undetected if and only if their distance is a multiple of 32767 |
| `StubInvariant.BoundedSearchIsComplete` | osal/ut_assert/src/utstubs.c:133-184 | under the invariant, a search bounded by the high-water mark fails exactly when no slot of the whole table matches, and else gives the first match in probe order |
| `StubInvariant.StepKeeps` | osal/ut_assert/src/utstubs.c:118-309 | every operation keeps: unused slots all zero, searched entries within the high-water mark of their hash start, at most one counter, sticky code, hook, context and once-record per key, live buffers partly unread |
| `StubMemory.RunKeepsValid` | osal/ut_assert/src/utstubs.c:118-832 | over every run of operations, the outstanding allocations are exactly the buffers of entries flagged as allocated, no two entries share one, and the table invariant holds |
| `StubMemory.ReachableSearchIsComplete` | osal/ut_assert/src/utstubs.c:133-184 | in every state reached from the start by any interleaving, the bounded search answers as a scan of all slots would |
| `StubMemory.FreeIsLegal` | osal/ut_assert/src/utstubs.c:118-127 | whatever an entry frees is an outstanding allocation that no other entry refers to |
| `StubMemory.ResetAllStartsOver` | osal/ut_assert/src/utstubs.c:186-204 | a reset of all keys gives, from every reachable state, the state of a new start: an empty table, the mark at zero, and every block of its own freed |
| `StubOrder.AddIsLastIffPacked` | osal/ut_assert/src/utstubs.c:133-184 | an entry added in the first unused slot is met after all others of its kind and key if and only if no unused slot precedes one of them |
| `StubEffects.StepFrame` | osal/ut_assert/src/utstubs.c:186-832 | what a search for a kind and key sees, and in which order, is changed only by operations on that kind and key |
| `StubAdditions.AddsInOrderIff` | osal/ut_assert/inc/utstubs.h:125-152 | over any run, every deferred code or data buffer set for a key is met after all that are there if and only if each, when it is set, finds every entry behind an unused slot equal to itself |
| `StubAdditions.UndisturbedRunsAddInOrder` | osal/ut_assert/inc/utstubs.h:125-152 | in every run where nothing live at one addition is gone at the next, each addition is met after all earlier ones |
| `StubAdditions.LaterCodeOvertakes` | osal/ut_assert/inc/utstubs.h:125-131 | four calls after which the second deferred code set for a key is used before the first |
| `StubAdditions.CountdownInOrder` | osal/ut_assert/src/utstubs.c:249-309 | codes set for an idle key, under the condition of `AddsInOrderIff`, are returned by later calls as their schedule says, in the order they were set, whatever other keys do |
| `StubCodes.RunFollowsSchedule` | osal/ut_assert/src/utstubs.c:744-759 | in any run that does not alter a key's codes, the m-th call returns the code due at m, else the sticky code, else the default |
| `StubCodes.DueAtPrefixSum` | osal/ut_assert/src/utstubs.c:286-309 | code i is due at the sum of the first i counts |
| `StubCodes.DueOnlyAtPrefixSums` | osal/ut_assert/src/utstubs.c:286-309 | a code is due at no other call |
| `StubReturns.RunSticky` | osal/ut_assert/src/utstubs.c:311-347 | over any run the sticky code of a key is the value last set for it, and none if it was cleared or reset since |
| `StubReturns.RunUses` | osal/ut_assert/src/utstubs.c:387-405 | over any run the count of a sticky code is the number of times it was used since it was there, by a check or by a call without a code due, in 32 bits |
| `StubReturns.RunHook` | osal/ut_assert/src/utstubs.c:552-585 | over any run the hook of a key is the one last set, and none if it was removed or reset since |
| `StubReturns.CallReturns` | osal/ut_assert/src/utstubs.c:744-830 | a call returns what its hook returns if there is a hook, else the deferred code due now, else the sticky code, else the default |
| `StubReturns.CallAfterRun` | osal/ut_assert/src/utstubs.c:744-830 | the same after any run, with the hook and the sticky code that were last set |
| `StubReturns.RunReturns` | osal/ut_assert/src/utstubs.c:744-830 | in every run in which each deferred code is added at the end, all calls of a key return what the settings made in the run say, in order |
| `StubReturns.RunRecords` | osal/ut_assert/src/utstubs.c:349-367 | over any run the code recorded for a key is that of its last call since the last reset, before its hook |
| `StubReturns.RunArgs` | osal/ut_assert/src/utstubs.c:666-737 | over any run the arguments a call will find are those registered since the last call or reset of the key, in order, the first eight of them |
| `StubCalls.RunCounts` | osal/ut_assert/src/utstubs.c:369-385 | after any run the count of a key is the number of its calls since its last reset, in 32 bits |
| `StubCalls.RunCountsCalls` | osal/ut_assert/src/utstubs.c:369-385 | over any run without a reset of the key, the count goes up by the number of its calls, modulo 2^32 |
| `StubCalls.CallDropsContext` | osal/ut_assert/src/utstubs.c:798-829 | no context survives the call it was registered for |
| `StubCalls.RunsExactlyOnce` | osal/ut_assert/src/utstubs.c:206-247 | over any run, a function that is called at all between two resets of its key is run exactly once there, and not at all otherwise |
| `StubBuffers.CopyToLocalEffect` | osal/ut_assert/src/utstubs.c:483-514 | a transfer delivers the front of the first pending buffer, as much as is asked, and leaves the rest pending |
| `StubBuffers.SetBufferEffect` | osal/ut_assert/src/utstubs.c:407-445 | an added buffer joins the pending ones after those ahead of the first unused slot, last exactly when the chain is packed |
| `StubBuffers.RefillOvertakes` | osal/ut_assert/inc/utstubs.h:144-152 | a buffer added right after another was used up is delivered before every one that was waiting |
| `StubBuffers.PendingFrame` | osal/ut_assert/src/utstubs.c:407-547 | the bytes pending for a key are changed only by operations on its buffers or writes into their memory |
| `StubConservation.CopyFromLocalEffect` | osal/ut_assert/src/utstubs.c:516-547 | as many bytes as are copied in leave the front of the first pending buffer and the rest stays pending; the bytes given are there instead, their number is returned, nothing else is written, and only a block of the table's own that is filled up is freed |
| `StubConservation.RunConserves` | osal/ut_assert/src/utstubs.c:407-547 | over any run, resets and copies in both directions included, the bytes delivered, the bytes thrown away or overwritten and those still unread are together exactly the bytes that were there and were queued, as long as nothing else writes into the memory of the buffers |
| `StubConservation.RunStreams` | osal/ut_assert/src/utstubs.c:483-547 | with nothing queued meanwhile, under the same condition, bytes leave in order whatever sizes are asked for; without resets and copies into the buffers, what leaves is what is delivered |
| `StubFilling.CopiesFill` | osal/ut_assert/src/utstubs.c:516-547 | over any run that otherwise leaves a caller's own buffer alone, the bytes handed in by any number of calls are in it one after the other, as many as there is room for, nothing else in it changes, and the calls return their number together |
| `StubMachine.Machine.constructor` | osal/ut_assert/src/utstubs.c:110-111 | the table at program start is all zero and valid |
| `StubMachine.Machine.ClearStubEntry` | osal/ut_assert/src/utstubs.c:118-127 | zeroes the slot and frees its buffer if it owns one, which is then outstanding |
| `StubMachine.Machine.GetStubEntry` | osal/ut_assert/src/utstubs.c:133-184 | the probe loop gives the first match within the mark, which it leaves; for an unused slot the first one anywhere, and the mark then covers it |
| `StubMachine.Machine.ResetState` | osal/ut_assert/src/utstubs.c:186-204 | the sweep clears exactly the entries of the key, or all, frees each of their buffers once, and resets the mark only for all |
| `StubMachine.Machine.StubCallOnce` | osal/ut_assert/src/utstubs.c:206-247 | the scan says to run the function exactly when it is not recorded, and then records it in the lowest unused slot |
| `StubMachine.Machine.SetDeferredRetcode` | osal/ut_assert/src/utstubs.c:249-269 | a positive count adds an entry, any other changes nothing; aborts only when the table is full |
| `StubMachine.Machine.ClearDeferredRetcode` | osal/ut_assert/src/utstubs.c:271-284 | the loop ends and leaves no deferred code of the key and every other entry |
| `StubMachine.Machine.CheckDeferredRetcode` | osal/ut_assert/src/utstubs.c:286-309 | counts the first code down; at zero gives its value and removes it |
| `StubMachine.Machine.SetDefaultReturnValue` | osal/ut_assert/src/utstubs.c:311-336 | sets the one sticky code of the key, new or existing; `StubReturns.RunSticky` says over runs what it then is |
| `StubMachine.Machine.ClearDefaultReturnValue` | osal/ut_assert/src/utstubs.c:338-347 | removes the sticky code if there is one, so that there is none (`StubReturns.RunSticky`) |
| `StubMachine.Machine.CheckDefaultReturnValue` | osal/ut_assert/src/utstubs.c:387-405 | gives the sticky code and counts its use |
| `StubMachine.Machine.GetStubCount` | osal/ut_assert/src/utstubs.c:369-385 | gives the count of the key and changes nothing |
| `StubMachine.Machine.GetStubRetcodeAndCount` | osal/ut_assert/src/utstubs.c:349-367 | gives code and count of the key if it was called since its last reset, and changes nothing |
| `StubMachine.Machine.SetDataBuffer` | osal/ut_assert/src/utstubs.c:407-445 | adds a buffer, copied or the caller's own; a null or empty one changes nothing |
| `StubMachine.Machine.StubCopyToLocal` | osal/ut_assert/src/utstubs.c:483-514 | delivers from the first buffer and drops it once used up |
| `StubMachine.Machine.StubCopyFromLocal` | osal/ut_assert/src/utstubs.c:516-547 | overwrites the unread front of the first buffer and drops it once used up |
| `StubMachine.Machine.SetHookFunction` | osal/ut_assert/src/utstubs.c:552-585 | sets, replaces or deletes the one hook of the key |
| `StubMachine.Machine.StubRegisterContext` | osal/ut_assert/src/utstubs.c:666-737 | appends to the one context of the key, up to its size |
| `StubMachine.Machine.DefaultStubImpl` | osal/ut_assert/src/utstubs.c:744-830 | chooses the code, counts the call, lets the hook replace the code and drops the context; what it returns is in `StubReturns.CallReturns` |
| `StubMachine.Perform` | osal/ut_assert/src/utstubs.c:186-832 | every operation in place does to the table what the function of the same operation says, and keeps it valid |
| `QueueStubs.PutEffect` | osal/src/ut-stubs/osapi-utstub-queue.c:202-219 | a put that stores adds its message to its own queue and no other, at the end exactly when the chain of the queue has no hole once the stub is entered; a put that does not store changes no queue |
| `QueueStubs.GetEffect` | osal/src/ut-stubs/osapi-utstub-queue.c:155-177 | a get succeeds exactly when the stub call does and something is delivered; it takes from the front of its own queue and no other |
| `QueueStatus.EnterReturns` | osal/src/ut-stubs/osapi-utstub-queue.c:155-219 | entering a stub gives what its hook returns if it has one, else the deferred code due, else the sticky code, else success, and counts the call once, whatever arguments are registered |
| `QueueStatus.PutReturns` | osal/src/ut-stubs/osapi-utstub-queue.c:202-219 | a put returns exactly that status |
| `QueueStatus.GetReturns` | osal/src/ut-stubs/osapi-utstub-queue.c:155-177 | a get returns that status if it is not success; else success if something is waiting and room is given, and the code for an empty queue if not |
| `QueueRuns.QueueIsABag` | osal/src/ut-stubs/osapi-utstub-queue.c:155-219 | for every interleaving of puts and gets on all queues, and of anything else done with the table or with the caller's memory that is not about the buffers of the queue, with gets large enough, every message put on a queue is got once, unchanged, or still waiting |
| `QueueOrder.FifoIffPacked` | osal/src/ut-stubs/osapi-utstub-queue.c:155-219 | over every such run, messages that are told apart come out in the order they were put if and only if every put that stored found the chain of its queue without a hole once the stub was entered |
| `QueueHoles.PutIsLastIff` | osal/src/ut-stubs/osapi-utstub-queue.c:202-219 | a put that stores goes to the end of its queue if and only if, in the table before the call, every slot before a message of the queue is in use by something other than a context of OS_QueuePut or a code of it that is due, or is where its first counter goes |
| `QueueHoles.IdlePutIsLastIff` | osal/src/ut-stubs/osapi-utstub-queue.c:202-219 | when OS_QueuePut has been called before and has no deferred code and no stale context: if and only if the queue has no hole before the call |
| `QueueOrder.QueueIsFifo` | osal/src/ut-stubs/osapi-utstub-queue.c:155-219 | messages put on an empty queue while none is got, with no deferred code set for OS_QueuePut, come out in the order they were put, whatever is put meanwhile on other queues, although every call registers and drops a context in the same table |
| `QueueOvertakes.PutAfterGetOvertakes` | osal/src/ut-stubs/osapi-utstub-queue.c:155-219 | a put right after a get that took a whole message comes out before every message that was waiting, once OS_QueuePut has been called before |
| `QueueOvertakes.DeferredCodeOvertakes` | osal/src/ut-stubs/osapi-utstub-queue.c:202-219 | with a deferred code for its second call, three puts on an empty queue leave the third message before the first |
| `QueueMachine.OSQueuePut` | osal/src/ut-stubs/osapi-utstub-queue.c:202-219 | the put in place does what `QueueStubs.QueuePut` says and keeps the table valid |
| `QueueMachine.OSQueueGet` | osal/src/ut-stubs/osapi-utstub-queue.c:155-177 | the get in place does what `QueueStubs.QueueGet` says and keeps the table valid |
| `UtList.Rotate` | osal/ut_assert/src/utlist.c:90-123 | a ring may be read from any of its nodes |
| `UtList.InsertBefore` | osal/ut_assert/src/utlist.c:109-115 | the new node comes before the existing one, and next and prev stay inverse all round |
| `UtList.InsertAfter` | osal/ut_assert/src/utlist.c:101-107 | the new node comes after the existing one, and next and prev stay inverse all round |
| `UtList.Extract` | osal/ut_assert/src/utlist.c:117-123 | the node becomes a ring of its own and the others stay a ring |
| `UtList.Merge` | osal/ut_assert/src/utlist.c:90-99 | two rings become their concatenation; the same call on the merged ring parts them again |
| `UtList.DeleteNode` | osal/ut_assert/src/utlist.c:161-170 | a data node is extracted and freed, an embedded head only extracted |
| `UtList.Reset` | osal/ut_assert/src/utlist.c:82-88 | the loop ends; every other node of the ring is freed if it has data, else left a ring of its own |
| `UtList.List.constructor` | osal/ut_assert/src/utlist.c:40-69 | as many heads as tags, all different, each an empty ring with its tag |
| `UtList.List.Add` | osal/ut_assert/src/utlist.c:147-159 | a new node with the data is inserted before the head of the tag; an unknown tag changes nothing |
| `UtList.List.Destroy` | osal/ut_assert/src/utlist.c:71-80 | however the heads are merged, every data node in a ring with a head is freed, none twice, no head separately, and every head is left an empty ring |
| `TestOrder.WalkIsExact` | osal/ut_assert/src/uttest.c:83-133 | lane by lane, what is executed when nothing stops the program is the entries registered before the run and then those registered ahead of the walk during it, in order, each once, and nothing else |
| `TestOrder.RunIsSorted` | osal/ut_assert/src/uttest.c:83-133 | by the group that each entry was registered with: setup before test before teardown, whatever is registered on the way; the default group comes first when registered before the run and last when registered during it |
| `TestOrder.WalkInOrder` | osal/ut_assert/src/uttest.c:97-133 | without registrations during the run, and unless the program is stopped, every entry is executed once, group by group in registration order |
| `TestOrder.RunIsExact` | osal/ut_assert/src/uttest.c:51-133 | of each group, when nothing stops the program, the entries registered before the run are executed once and in order, and of those registered during it exactly the ones registered by an entry whose place in the ring comes before the head of the group, once and in order |
| `TestOrder.RegistrationsParts` | osal/ut_assert/src/uttest.c:110-131 | an entry that is run makes all the registrations of its setup, then those of its test, then those of its teardown, in order |
| `TestEntry.ChecksAre` | osal/ut_assert/src/uttest.c:110-131 | every assertion, message and border of a function is made at its place among the others |
| `TestEntry.EntryInPlain` | osal/ut_assert/src/uttest.c:110-131 | an entry makes an assertion fail as a type, in a segment that ends, if and only if one of its setup does in the context TSF, one of its test in FAILURE or one of its teardown in TTF; and it stops the program if and only if one of the three reports an ABORT so |
| `TestEntry.PlainEntryFails` | osal/ut_assert/src/uttest.c:110-131 | for functions that only assert: an entry fails as a type if and only if an assertion of setup, test or teardown fails and the type is TSF, FAILURE or TTF, or one that was given the type fails |
| `UtTest.NewDatabase` | osal/ut_assert/src/uttest.c:140-147 | four empty groups |
| `UtTest.RegisterEntry` | osal/ut_assert/src/uttest.c:51-81 | before the run an entry becomes the last of its group; an unknown group is ignored |
| `UtTest.AddEntry` | osal/ut_assert/src/uttest.c:51-66 | during the run an entry becomes the last before the head of its group in the merged ring, and the ring holds exactly the nodes of the list |
| `UtTest.RunEntry` | osal/ut_assert/src/uttest.c:106-132 | running an entry makes the assertions of setup, test and teardown in order and adds every entry they register to the ring, ahead of the walk or behind it, and leaves the walk at the next node of the ring as it then is; all of it if and only if no ABORT is reported in one of the three, else as far as that; it is counted if it has a test |
| `UtTest.WalkRing` | osal/ut_assert/src/uttest.c:103-133 | the loop over the growing ring executes exactly the entries of the walk in their order and then ends, for entries whose registrations end; counters, executed count and the order of all assertions are those of that walk, and the ring holds everything that was registered; or, if and only if an entry of the walk reports an ABORT, it stops there, with all that comes before it done and nothing after it |
| `UtTest.UtTestRun` | osal/ut_assert/src/uttest.c:83-138 | merges and executes the walk; when nothing stops it, that is in order, group by group, it frees every node that the list ever had once, including every one added meanwhile, and takes the exit code from the totals; when stopped, it has executed a part of the walk from its start and the list is as it was then, with nothing freed |
| `UtTest.RingHoldsAll` | osal/ut_assert/src/uttest.c:51-133 | before the head that registrations with a group go to, the ring holds after the run what it held before and then all that setup, test and teardown of the executed entries registered with the group, in order, in time or not |
| `UtTest.ProgramExecutes` | osal/ut_assert/src/uttest.c:51-138 | of each group a program executes, when nothing stops it, exactly what its setup registered, in order, and then exactly what executed entries registered in time, in order; and all of it group after group |
| `UtTest.TestsCount` | osal/ut_assert/src/uttest.c:119-123 | the executed count is the number of executed entries that have a test |
| `UtTest.ExitCodeOfProgram` | osal/ut_assert/src/utbsp.c:191-255 | a program ends without an exit code if and only if its setup, or the setup, test or teardown of an entry that it executes, reports an ABORT; otherwise, with fewer than 2^32 assertions, its exit code is an error if and only if an assertion of one of them, in a segment that has ended, failed as FAILURE, TSF or TTF |
| `UtTest.AbortingProgram` | osal/ut_assert/src/utbsp.c:191-194 | a program whose setup fails one assertion as ABORT, or as another type that is the same in one byte, does not get to an exit code, although no assertion failed as FAILURE, TSF or TTF |
| `UtTest.Application` | osal/ut_assert/src/utbsp.c:232-255 | the whole program, from setting up in a segment of its own to its end: it executes the walk of the entries it registered, and it ends as above |
| `UtAssert.RunMatches` | osal/ut_assert/src/utassert.c:109-186 | over any run the counters are, in 32 bits, the tallies of the assertions, passed ones under PASS and failed ones under their type, in the segments added to the totals and since the last border |
| `UtAssert.PassedIsPass` | osal/ut_assert/src/utassert.c:155-186 | a passed assertion adds one to PASS and to the total and to nothing else, and never stops the program, whatever its type or the context |
| `UtAssert.FailedIsType` | osal/ut_assert/src/utassert.c:155-186 | a failed one adds one to its type, or to the context if it has none, and to the total and to nothing else; it stops the program if and only if that is ABORT in one byte |
| `UtAssert.AllPassExit` | osal/ut_assert/src/utbsp.c:191-223 | a program whose assertions all pass and that gives no message of type ABORT exits without an error, however many assertions it makes |
| `UtAssert.TotalsAddUp` | osal/ut_assert/src/utassert.c:122-186 | over any run the case totals and the assertions of no real case type add up to the assertion total in 32 bits, so the case totals alone do if and only if those are a multiple of 2^32 |
| `UtAssert.TotalsAddUpIffReal` | osal/ut_assert/src/utassert.c:122-186 | with fewer than 2^32 assertions, the case totals add up to the assertion total if and only if every assertion of a segment that has ended was of a real case type |
| `UtAssert.ExitCode` | osal/ut_assert/src/utbsp.c:197-223 | over any run the exit code is an error if and only if a 32-bit tally of FAILURE, TSF or TTF is not zero |
| `UtAssert.CompletesIffNoneFells` | osal/ut_assert/src/utbsp.c:191-194 | a run of operations gets to its end if and only if no message is given with a type that is ABORT in one byte, and no assertion fails with such a type or, having none, in such a context |
| `UtAssert.ExitCodeIsRight` | osal/ut_assert/src/utbsp.c:191-223 | for every program, it is aborted if and only if what it has done by then reported an ABORT; else, for fewer than 2^32 assertions, its exit code is an error if and only if an assertion failed, in a segment that has ended, whose type, or the context then in force, is FAILURE, TSF or TTF |
| `UtAssert.AbortIsNoExit` | osal/ut_assert/src/utbsp.c:191-194 | one assertion that fails as ABORT, or as another type that is the same in one byte, stops the program, although the totals after it would make a successful exit |
| `UtAssert.BoundIsExact` | osal/ut_assert/src/utbsp.c:197-223 | a bound on the number of assertions makes the exit code right for all runs if and only if it is below 2^32 |
| `UtAssert.WrapHidesSegment` | osal/ut_assert/src/utassert.c:122-143 | one segment of 2^32 failures, or any multiple of it, gives a successful exit |
| `UtAssert.WrapHidesFailures` | osal/ut_assert/src/utbsp.c:197-223 | two segments of 2^31 failures each give a successful exit |
| `UtAssert.Counters.UtAssertBeginTest` | osal/ut_assert/src/utassert.c:109-115 | the segment counters become zero and nothing else changes |
| `UtAssert.Counters.UtAssertEndTest` | osal/ut_assert/src/utassert.c:122-143 | the loop adds every segment counter to its total if there was an assertion, and the segment counters become zero |
| `UtAssert.Counters.UtAssertEx` | osal/ut_assert/src/utassert.c:160-186 | counts the assertion, under PASS if it passed, else under its type if that is a real one, and under nothing else; and goes on if and only if it passed or its type is not ABORT in one byte |
| `UtAssert.Counters.UtAssertDefault` | osal/ut_assert/src/utassert.c:155-158 | the same with the current context for its type |
| `UtAssert.Counters.UtAssertMessage` | osal/ut_assert/src/utassert.c:188-224 | counts nothing, and goes on if and only if the type is not ABORT |
| `ObjIds.DecomposeCompose` | osal/src/ut-stubs/utstub-helpers.c:174-186 | unpacking gives back index and type if and only if both fit 16 bits and the type lacks the marker bit |
| `ObjIds.ComposeDecompose` | osal/src/ut-stubs/utstub-helpers.c:174-186 | packing what was unpacked gives back the ID if and only if it has the marker bit |
| `ObjIds.DifferentIds` | osal/src/ut-stubs/utstub-helpers.c:174-179 | IDs are equal if and only if index and type are |
| `ObjIds.IssuedInTurn` | osal/src/ut-stubs/utstub-helpers.c:67-113 | over any run of allocations and deletions, the n-th index issued is n up to 127 and 127 ever after, and reuse is reported only then |
| `ObjIds.ReusedOnlyAtTheEnd` | osal/src/ut-stubs/utstub-helpers.c:67-113 | two issued indexes are equal if and only if both are 127; so the first 127 are all different |
| `ObjIds.IssuedSinceReset` | osal/src/ut-stubs/utstub-helpers.c:56-172 | over any run of allocations, deletions and other use of the stub table, the indexes of a type issued since the last reset of the table are 1, 2 and so on up to 127, which is issued ever after |
| `ObjIds.DistinctBetweenResets` | osal/src/ut-stubs/utstub-helpers.c:56-172 | two indexes of a type issued between resets are equal if and only if both are 127 |
| `ObjIds.ReuseIsReported` | osal/src/ut-stubs/utstub-helpers.c:67-113 | over any run of allocations and deletions, an index is reported as still in use if and only if it was issued before and not deleted since |
| `ObjIds.InUseSinceReset` | osal/src/ut-stubs/utstub-helpers.c:56-172 | over any run of allocations, deletions and other use of the stub table, an index of a type is in use if and only if it was issued since the last reset and not deleted since it was last issued |
| `ObjIds.DeletedOnce` | osal/src/ut-stubs/utstub-helpers.c:67-172 | in every state that such a run reaches, the first deletion of the index issued next finds it, and the second does not |
| `ObjIds.Objects.ClearAll` | osal/src/ut-stubs/utstub-helpers.c:56-62 | every pool becomes empty |
| `ObjIds.Objects.AllocStubObjId` | osal/src/ut-stubs/utstub-helpers.c:67-113 | the first use since a reset clears all pools; then the counter and bitmap of the type go from the pool to the pool with the next index in use, which it then is, reuse is reported if and only if it was in use, other types stay, and the ID is packed from index and type |
| `ObjIds.Objects.DeleteStubObjId` | osal/src/ut-stubs/utstub-helpers.c:118-172 | the first use since a reset clears all pools; then the index of the ID leaves the pool of the type, failures are due if and only if it was not there, it is out of range or the ID is of another type, and other types stay |
| `ElfBytes.FieldRead` | tools/elf2cfetbl/elf2cfetbl.c:1566-1636 | after the swap that file and machine order call for, the machine finds in every field the number that the file holds |
| `ElfBytes.SwapUInt16` | tools/elf2cfetbl/elf2cfetbl.c:2175-2181 | the two bytes are reversed and no other changes |
| `ElfBytes.SwapUInt32` | tools/elf2cfetbl/elf2cfetbl.c:2187-2196 | the four bytes are reversed and no other changes |
| `ElfBytes.SwapUInt64` | tools/elf2cfetbl/elf2cfetbl.c:2198-2218 | the eight bytes are reversed and no other changes |
| `ElfBytes.SwapRecord` | tools/elf2cfetbl/elf2cfetbl.c:2079-2169 | every field of a record is reversed and nothing else |
| `ElfBytes.IntEncode` | tools/elf2cfetbl/ELF_Structures.h:43-80 | reading a number in either byte order gives back what was written |
| `ElfRecords.FileHeaderIsRead` | tools/elf2cfetbl/ELF_Structures.h:43-80 | a file header written member after member, in the order and widths of Elf32_Ehdr or Elf64_Ehdr and either byte order, is read with the numbers it was written with |
| `ElfRecords.SectionHeaderIsRead` | tools/elf2cfetbl/ELF_Structures.h:340-369 | the same for Elf32_Shdr and Elf64_Shdr |
| `ElfRecords.SymbolIsRead` | tools/elf2cfetbl/ELF_Structures.h:421-442 | the same for Elf32_Sym and Elf64_Sym, whose members come in different orders |
| `ElfRecords.ElfIsTaken` | tools/elf2cfetbl/elf2cfetbl.c:1473-1679 | a file is taken for an object file if and only if its first bytes are those of one, and it has a header with a known type and machine and version one where these are |
| `ElfHeaders.HeadersShow` | tools/elf2cfetbl/elf2cfetbl.c:2486-2602 | the headers are 116 bytes; by position: the magic number, subtype 8, length 64, spacecraft, processor, application, seconds and a zero in the words from 0 on, zeros at 64 and 68, the number of data bytes at 72, most significant byte first; and the two texts at 32 and 76 filled up with zeros, those of the settings or else of the definition |
| `ElfHeaders.TableIsFramed` | tools/elf2cfetbl/elf2cfetbl.c:609-728 | whatever is converted is an object file, and in what comes out the word at 72 is the number of bytes behind the headers and every other header field is the one of the settings |
| `ElfConverter.ReadRecord` | tools/elf2cfetbl/elf2cfetbl.c:1706-1735 | on a machine of either byte order, the numbers of the record in the file's own order, or failure when the file is too short |
| `ElfConverter.ReadName` | tools/elf2cfetbl/elf2cfetbl.c:1745-1749 | the bytes up to the zero byte; `ElfEncoding.NameRead` says when there are any |
| `ElfEncoding.NameRead` | tools/elf2cfetbl/elf2cfetbl.c:1745-1749 | a name is read at an offset if and only if it is there: fewer than sixty bytes other than zero, and then a zero byte |
| `ElfConverter.GetElfHeader` | tools/elf2cfetbl/elf2cfetbl.c:1473-1679 | encoding and header, for exactly the files whose identification, type, machine and version are accepted |
| `ElfConverter.GetSectionHeader` | tools/elf2cfetbl/elf2cfetbl.c:1685-1755 | the section at an offset with its name |
| `ElfConverter.GetSections` | tools/elf2cfetbl/elf2cfetbl.c:657-667 | all sections, and the string and symbol tables that they lead to, or failure when one cannot be read |
| `ElfConverter.GetSymbols` | tools/elf2cfetbl/elf2cfetbl.c:683-691 | all symbols with their names and the last one named like the table definition |
| `ElfConverter.GetTblDefInfo` | tools/elf2cfetbl/elf2cfetbl.c:2253-2318 | the definition's texts and size, in the file's byte order |
| `ElfConverter.LocateUserObject` | tools/elf2cfetbl/elf2cfetbl.c:2336-2373 | the first symbol whose name is the object's, or that with one more character |
| `ElfConverter.ReadUserObject` | tools/elf2cfetbl/elf2cfetbl.c:2397-2457 | zeros for .bss, as many as the symbol has; else bytes from the place of the symbol, as many as the smaller of its size and the defined one, or as defined when it has no size |
| `ElfConverter.OutputHeaders` | tools/elf2cfetbl/elf2cfetbl.c:2486-2602 | the 116 header bytes, on a machine of either byte order, with every number and text at its position |
| `ElfConverter.Convert` | tools/elf2cfetbl/elf2cfetbl.c:609-728 | the table that the file describes, a function of the file and the settings only, so the same on every machine; only object files are converted, and the headers, by position, have the settings and the number of bytes behind them |
| `ElfSelection.StringsFromLastStrtab` | tools/elf2cfetbl/elf2cfetbl.c:1780-1795 | symbol names come from the last string table named .strtab when there is one |
| `ElfSelection.StringsFromFirstOther` | tools/elf2cfetbl/elf2cfetbl.c:1780-1795 | otherwise from the first named string table that is not the one for section names |
| `ElfSelection.SymbolsFromLastSymtab` | tools/elf2cfetbl/elf2cfetbl.c:1767-1779 | symbols come from the last named symbol table; symbol i is its entry i + 1 when the entry size is that of the record |
| `ElfSelection.DefIsLast` | tools/elf2cfetbl/elf2cfetbl.c:1937-1942 | the definition is a symbol if and only if it is the last named CFE_TBL_FileDef, or that after one character |
| `ElfSelection.ObjectIsFirst` | tools/elf2cfetbl/elf2cfetbl.c:2336-2373 | the object is a symbol if and only if it is the first with the name, or with that and one more character |
| `ElfEncoding.EncodingDoesNotMatter` | tools/elf2cfetbl/elf2cfetbl.c:609-728 | for all files that hold the same sections, symbols, definition and data, in records written member after member as the C structures have them, in 32 or 64 bits, either byte order and any layout, the table file is the same: by position, the settings, the texts of the definition, the number of data bytes, and then exactly the data |
| `ElfWriter.RoundTrip` | tools/elf2cfetbl/elf2cfetbl.c:609-728 | all contents that fit, written as an object file in any of the four encodings and converted, come out: by position, the settings, the texts of the definition, the number of data bytes, and then exactly the data |
| `ElfWriter.PartsEncode` | tools/elf2cfetbl/elf2cfetbl.c:609-728 | the object file built from any such contents encodes them: every header, symbol, name, the definition and the data are read back where the converter looks |
| `ElfCrc.ConvertAndCheck` | tools/elf2cfetbl/elf2cfetbl.c:2564-2620 | the CRC tool reports for a converted table the size and CRC of exactly the object's bytes, for every pattern of short reads |

## Left out

- Hooks that use the stub table themselves, and their argument lists: a hook is the value it returns.
- UT_GetDataBuffer, UT_Hook_GetArgPtr and the names and types of registered arguments: reading only.
- The other operating system stubs: they register arguments and return a code.
- Failure of malloc(): the source aborts the test.
- Console output, verbosity, segment names and the text of reports; the type of a report is kept, because one of type ABORT stops the program.
- Boards other than generic Linux: their shutdown after an ABORT does not return either.
- StubTable.Enabled: leaves out callers that queue a block of the table's own as their buffer or write through a pointer to one, which UT_GetDataBuffer can give them; no run in this model does either.
- Command line, file names, time stamps and permissions of the converter: the settings are parameters.
- UtTest.WalkRing: the functions of an entry are given by the assertions and registrations they make in the run, as finite data; a run that never ends, because an entry keeps registering itself ahead of the walk, is no such data.
- Crc16.CalculateCRC: for fewer than 2^31 bytes, because the source counts them in a signed 32-bit integer.
- UtAssert.ExitCodeIsRight: for fewer than 2^32 assertions; `UtAssert.BoundIsExact` shows that no more will do, and `UtAssert.ExitCode` has no bound.
- StubConservation.RunConserves: not when the caller writes into memory that it queued without a copy, or memory is queued twice and copied into; the bytes there are then no longer those that were queued.
- QueueOrder.FifoIffPacked: for messages that differ; of two equal ones the contents do not tell which came first.
- ObjIds.Objects.DeleteStubObjId: for types in range, which the calling stubs pass; for an index from 128 on the source reports a failure and then still touches memory outside its bitmap, of which the model has only the report.
- ElfFile.Table: None stands both for an error exit and for reading that C does not define: names of 60 bytes or more or without an end, symbols in unnamed or missing sections, a symbol table without room for an entry.
- ElfFile.Table: offsets of names and symbols from 2^31 on count as unreadable; the source truncates them to 32 bits.
- ElfFile.IsDef: an empty symbol name is not the definition; the source looks at the byte after its end.
- The empty output file that the converter has opened when the object is not found.
