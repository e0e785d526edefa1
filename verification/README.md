# Verified models of the NXP OpenThread platform layer

Dafny models of the stateful parts of the platform layer, with proofs over all inputs, all runs and all
interleavings. `dafny verify dfyconfig.toml` checks the project.

| file | models |
|---|---|
| `Bytes.dfy` | machine words (little-endian), `memcpy`, `memset`, overlapping moves |
| `Tlv.dfy` | the `<tag, length, value>` byte format of both settings stores |
| `SettingsSpec.dfy` | the settings API on record lists, and the multimap with a byte budget it stands for |
| `FlashSettings.dfy` | `flash_fsa.c`: the 1024-byte buffer edited in place (`flash_littlefs.c` and `flash_nvm.c` share the algorithm) |
| `IdleSave.dfy` | the deferred save: writer tasks and the idle task, interleaved |
| `RamStorage.dfy` | `ram_storage.c`: append and compact |
| `StoreEquivalence.dfy` | the two stores compared call by call and run by run |
| `CommandStream.dfy` | `ncp_basic.c`: the incremental command and character parser, and the sender's cutting of data |
| `SerialPorts.dfy` | `serial_rpmsg.c`, `serial_uart.c`: callbacks, process functions and sleep votes, interleaved |
| `Logging.dfy` | `logging.c`: the framed ring buffer |
| `LoggerRecords.dfy` | `logging.c`: that ring with the records the logger itself adds |
| `RateLimiter.dfy` | `token_bucket.c`: the rate limiter in 32-bit thousandths |
| `LockOrder.dfy` | the lock macros of `ot_lwip.h`, any number of OpenThread-side tasks, the TCP/IP task and its mailbox |
| `MdnsOwnership.dfy` | `mdns_socket.c` and the message queue of `br_rtos_manager.c`: who releases what |
| `Forwarding.dfy` | `lwip_hooks.c`: prefix matching and the forwarding decision |

Code that works in place is modelled by classes and loops over arrays, each method proved against a function on
values; the laws are lemmas about those functions. Concurrent protocols are state machines: `Can` and `Do` (or `Next`)
give the atomic steps, `Trace`/`After` (or `Reaches`) every run of them.

## Assumptions of the model

- 16-bit fields are stored low byte first (Cortex-M); the log ring stores its length high byte first, as the code does.
- A lock, a mailbox operation, an interrupt-disabled section and one file write or delete are single steps. File writes
  succeed, and a missing file reads as length 0. `Init` and `Deinit` do not run concurrently with other calls.
- Allocation, conversion and buffer-room outcomes are arbitrary parameters of the steps. The TCP/IP task's mailbox has a
  fixed size, any one: `tcpip_callback` waits for room in it, `pbuf_free_callback` gives up without, and other users post
  to it at will.
- `SerialManager_TryRead` succeeds and returns what the ring holds; bytes arrive only while the ring has room.
- The TCP/IP task holds the core lock while it runs a callback and not while it waits for mail.
- The bytes that follow a buffer in memory are part of the model where the code can write to them (`RamStorage.RamBuffer`,
  the output of `FlashSettings.SettingsStore.Get`); what they are used for is not.
- A reset command does not return, so nothing after it is processed.

## Where the code does less than it seems to promise

Each of these is proved with the exact condition under which the code does keep the promise.

- `flash_fsa.c` Set replaces only the last value of a key, and Delete with an index that names no value removes all
  values of the key: this is what `SettingsSpec.MapStep` says, and `StoreEquivalence.StepAgreesIff` gives the exact calls on
  which the two stores agree.
- `flash_fsa.c` Add scans only the first run of a key: it appends for every key and value exactly on grouped lists
  (`SettingsSpec.AddAppendsIffGrouped`), which are all it ever builds.
- `flash_fsa.c` Get overwrites the caller's length before it compares the value's with it, so a value longer than the
  caller's buffer is copied whole (`FlashSettings.GetStaysWithinIff`, with `FlashSettings.GetOverrunsCaller`).
- A reset saves what the flag shows: between an operation's last byte and the flag it loses the operation, and with the
  flag set and a task inside a call it never happens (`IdleSave.ResetLosesNothingIff`, with
  `IdleSave.ResetBeforeFlagLoses`).
- `ram_storage.c` keeps the new block length in 16 bits, so a value of 65532 bytes or more can pass the tests and is then
  written past the buffer (`RamStorage.AddSucceedsIff`, `RamStorage.FitsIsExact`, `RamStorage.WrappedBlockPassesIff`). A
  Set that fails for space has already deleted the old values (`StoreEquivalence.RamSetAllOrNothingIff`, with
  `StoreEquivalence.RamSetLosesAKey` for both).
- The ring's acceptance test ignores the headers of stored records (`Logging.AcceptedIsSafeIff` for one record,
  `Logging.FifoIff` for runs, `Logging.EqualRecordsIff` for records of one size). With the default ring and the logger's own
  records it shows for every size but the smallest, three bytes, for which it never does (`LoggerRecords.ShippedRingIff`).
- The token bucket's overflow test compares a value with itself; refills can wrap, takes can be refused that an unbounded
  bucket grants, and a bucket can be nearly empty after a second without takes, exactly above a rate of 4290676
  (`RateLimiter.WrapsIff`, `RateLimiter.IdealIff`, `RateLimiter.FullAfterASecondIff`,
  `RateLimiter.AvailableAfterASecondIff`).
- The lock macros deadlock exactly when used with the OT lock held more than once, or together with the path that retakes
  the core lock under the OT lock (`LockOrder.DeadlocksIff`).
- The status of `pbuf_free_callback` is ignored, so all packets are released exactly when each release finds memory and
  room in the mailbox (`MdnsOwnership.EveryPacketReleasedIff`, with `MdnsOwnership.EverySizeCanLose`).
- Disabling listening frees the socket that callbacks already posted still use: safe exactly with no send in flight
  (`MdnsOwnership.DisableIsSafeIff`, with `MdnsOwnership.DisableInFlight`).
- Packets with a mesh-local address are commented as never forwarded; multicast copied by the hook is the exact exception
  (`Forwarding.MeshLocalCrossesIff`).

## Model

| member | source | states |
|---|---|---|
| `Tlv.DecodeEncode` | src/common/flash_fsa.c:65-78 | decoding the bytes of any record list gives that list back |
| `Tlv.EncodeDecode` | src/common/flash_fsa.c:65-78 | every well-formed buffer is the encoding of what it decodes to |
| `Tlv.RecordLayout` | src/common/flash_fsa.c:65-78 | byte for byte: tag and length in two bytes each, low byte first, then the value |
| `Tlv.RecordAt` | src/common/flash_fsa.c:205-227 | what a scanning loop reads at the offset of the i-th record is that record's tag, length and value |
| `Tlv.EncodeSplice` | src/common/flash_fsa.c:265-280 | replacing records i..j replaces exactly their bytes |
| `FlashSettings.SettingsStore.MoveData` | src/common/flash_fsa.c:103-140 | the tail arrives byte for byte at its new place although source and target overlap, nothing before it changes, used plus free is 1024; the two asserts are preconditions proved at every call |
| `FlashSettings.SettingsStore.Get` | src/common/flash_fsa.c:194-232 | error, length and copied bytes are those of the index-th value of the key, copied whole whatever capacity the caller offers, or NOT_FOUND with nothing written |
| `FlashSettings.GetStaysWithinIff` | src/common/flash_fsa.c:211-217 | for any store, key, index and capacity, Get leaves the memory after the caller's bytes alone, whatever is there, if and only if there is no such value or it is no longer than the capacity |
| `FlashSettings.GetOverrunsCaller` | src/common/flash_fsa.c:211-217 | a store, key and capacity on which it does not |
| `FlashSettings.SettingsStore.Find` | src/common/flash_fsa.c:205-227 | the loop stops at the record of the index-th value exactly when there is one |
| `FlashSettings.SettingsStore.ScanRun` | src/common/flash_fsa.c:311-327 | the loop shared by Add and Set ends at the end of the key's first run and remembers its last record |
| `FlashSettings.SettingsStore.Add` | src/common/flash_fsa.c:234-296 | the bytes become the encoding of the list with the record added after the key's run, exactly if that fits; otherwise NO_BUFS and no byte changes; the save flag is set on success |
| `FlashSettings.SettingsStore.Set` | src/common/flash_fsa.c:298-372 | the same for replacing the last record of the key's run or appending |
| `FlashSettings.SettingsStore.ScanDelete` | src/common/flash_fsa.c:387-412 | the byte range found is the value asked for, or the whole first run when the index names none |
| `FlashSettings.SettingsStore.Delete` | src/common/flash_fsa.c:374-445 | the bytes become the encoding without those records; NOT_FOUND changes nothing |
| `FlashSettings.SettingsStore.Wipe` | src/common/flash_fsa.c:447-466 | the store is empty, every byte zero, the save flag set |
| `FlashSettings.SettingsStore.Init` | src/common/flash_fsa.c:146-184 | the records are the file's bytes; the store is well formed exactly when the file decodes |
| `FlashSettings.SettingsStore.SaveIdle` | src/common/flash_fsa.c:468-496 | the flag is clear and the file is the record bytes, absent when there are none; untouched if nothing was to save |
| `FlashSettings.SettingsStore.ResetAndRestart` | src/common/spinel/misc.c:59-73 | save, reset and Init give back exactly the records from before, with or without unsaved changes |
| `FlashSettings.Execute` | src/common/flash_fsa.c:194-466 | every sequence of calls on the byte buffer returns what the multimap returns and ends in a state that refines it |
| `SettingsSpec.StepRefines` | src/common/flash_fsa.c:194-466 | each operation on a grouped list is the multimap operation: Add appends, Set replaces the last value or creates it, Delete removes one or all, other keys keep their values, NO_BUFS exactly when over budget |
| `SettingsSpec.RunRefines` | src/common/flash_fsa.c:194-466 | the same for every run, answers included |
| `SettingsSpec.RefusedIff` | src/common/flash_fsa.c:246-333 | Add is refused exactly when the list, four header bytes and the value go over 1024 bytes, Set exactly when they do without the last value of the key and its header |
| `SettingsSpec.ReachableRefines` | src/common/flash_fsa.c:248-268 | from the empty store every reachable state is grouped, contiguous per key and within 1024 bytes |
| `SettingsSpec.GroupedFill` | src/common/flash_fsa.c:311-338 | an edit inside the run of one key keeps every key in one block |
| `SettingsSpec.OnlyRun` | src/common/flash_fsa.c:387-428 | in a grouped list the first run of a key is its only one, so scanning the first run is enough |
| `SettingsSpec.GroupedIsContiguous` | src/common/flash_fsa.c:251-260 | grouped means that between two records of a key there are only records of that key |
| `SettingsSpec.AddAppendsIffGrouped` | src/common/flash_fsa.c:248-268 | Add appends to the values of every key, for every value, if and only if the list is grouped |
| `SettingsSpec.StepKeepsGrouped` | src/common/flash_fsa.c:234-445 | grouping and the byte budget survive every operation |
| `IdleSave.StepKeepsInv` | src/common/flash_fsa.c:468-496 | every step of every task keeps: mutual exclusion, snapshots are committed states, unsaved changes are accounted for |
| `IdleSave.RecordsAreFinishedCalls` | src/common/flash_fsa.c:234-466 | in every interleaving the records are what the finished calls, told from the events alone and in lock order, make of those at the start, and their values are those of the multimap after the same calls |
| `IdleSave.CallCompletes` | src/common/flash_fsa.c:234-466 | whenever the mutex is free any task can run any call through: it has its effect and sets the flag exactly if it changes the buffer |
| `IdleSave.OnlyTheMutexBlocks` | src/common/flash_fsa.c:468-496 | in every reachable state the idle task can step unless it rests with the flag clear or waits for the mutex, and a task can step unless it is outside and the mutex is taken |
| `IdleSave.NoLostUpdate` | src/common/flash_fsa.c:468-496 | in every interleaving, flag clear, idle task at rest and no task inside a call imply that the file is exactly what the finished calls make of the records at the start |
| `IdleSave.FileIsACommittedState` | src/common/flash_fsa.c:477-496 | between writes the file decodes to the outcome of the first so many finished calls, and it never goes back to an older version |
| `IdleSave.RestartAnswersAsBefore` | src/common/flash_fsa.c:146-184 | the store loaded after a completed save answers every run of calls as before the restart, and as the multimap |
| `IdleSave.ResetLosesNothingIff` | src/common/spinel/misc.c:59-73 | from every reachable state with the idle task at rest, the reset happens with exactly the current records in the file if and only if, with the flag set, no task is inside a call, or, with it clear, none is between its last byte and the flag |
| `IdleSave.ResetBeforeFlagLoses` | src/common/flash_fsa.c:265-283 | a run on which the reset loses a finished Add |
| `IdleSave.SaveCompletes` | src/common/flash_fsa.c:468-496 | from every reachable state, mid-call and mid-save included, a bounded number of steps without a new call is possible that makes the file exactly the current records |
| `RamStorage.RamBuffer.Add` | src/common/ram_storage.c:62-91 | the record is appended exactly if both capacity tests pass, else NO_BUFS and nothing changes; memory after the buffer is untouched unless a wrapped block length passes, and then the whole block is written there and the length grows by the wrapped one |
| `RamStorage.AddSucceedsIff` | src/common/ram_storage.c:66-76 | Add writes past the buffer if and only if a wrapped block length passes the tests; otherwise it succeeds exactly when the resulting bytes fit the buffer and the backend region, and a refusal changes nothing |
| `RamStorage.FitsIsExact` | src/common/ram_storage.c:66-76 | the capacity tests keep the block inside the buffer exactly when the 16-bit block length does not wrap or no fill level passes |
| `RamStorage.WrappedBlockPassesIff` | src/common/ram_storage.c:66-76 | with extended search a wrapped block passes exactly from 65532 bytes on, when what is left of its length fits |
| `RamStorage.RamBuffer.Get` | src/common/ram_storage.c:93-150 | error, full length and the bytes cut to the caller's capacity are those of the index-th value; length 0 when absent |
| `RamStorage.RamBuffer.Find` | src/common/ram_storage.c:109-140 | the loop finds the block of the index-th value exactly when there is one |
| `RamStorage.RamBuffer.Set` | src/common/ram_storage.c:152-193 | overwrites the first value in place when the length is the same, otherwise removes all values and appends; memory after the buffer is touched only if a wrapped block length passes, and then the old values are gone and NONE is answered |
| `RamStorage.RamBuffer.Delete` | src/common/ram_storage.c:195-248 | -1 filters out every record of the key in order however scattered, 0 removes the first, anything else is NOT_FOUND with the buffer unchanged; the loop terminates and memory after the buffer is untouched |
| `RamStorage.RamBuffer.RemoveBlock` | src/common/ram_storage.c:219-228 | the memmove takes out exactly one block |
| `RamStorage.WithoutValues` | src/common/ram_storage.c:213-245 | filtering leaves the key no values and every other key all of its values in order |
| `StoreEquivalence.StepAgreesIff` | src/common/ram_storage.c:62-248 | a call refused for space by neither store stays inside the buffer and has the same answer and effect in both if and only if it is agreeable (for Set: at most one value, or first and last equal the new one; for Delete: index 0 or -1, or no values) |
| `StoreEquivalence.RunsAgree` | src/common/ram_storage.c:62-248 | every run of agreeable calls gives the same answers and the same values in both stores |
| `StoreEquivalence.ExecuteBoth` | src/common/flash_fsa.c:194-445 | the two implementations on their byte buffers, driven by the same comparable calls, give the same answers throughout |
| `StoreEquivalence.RamSetAllOrNothingIff` | src/common/ram_storage.c:152-193 | Set stores the value or changes nothing if and only if its first value has the new length, or the key is new and no wrapped length passes the tests, or the record (at most 65531 bytes) fits once the old values are gone |
| `StoreEquivalence.RamSetFailureLosesValues` | src/common/ram_storage.c:171-190 | in every other case of a key with values they are all gone and other keys keep theirs, and the call answers NO_BUFS or has written past the buffer |
| `StoreEquivalence.RamSetLosesAKey` | src/common/ram_storage.c:171-190 | a store in a 12-byte buffer where a nine-byte value loses the key and every value of 65532 bytes or more is written past the buffer, by Set and by Add |
| `CommandStream.CommandParser.Process` | examples/helper/ncp_basic/ncp_basic.c:153-192 | copying as many bytes as possible per pass executes, prints and keeps exactly what byte-by-byte decoding does |
| `CommandStream.FragmentationIndependent` | examples/helper/ncp_basic/ncp_basic.c:153-192 | any cutting of the stream gives the events and partial command of the whole stream |
| `CommandStream.StreamRoundTrip` | examples/helper/ncp_basic/ncp_basic.c:40-66 | any mixed sequence of commands and characters, serialized and cut, decodes to itself up to the first reset with nothing left over |
| `CommandStream.ServiceStream` | examples/helper/ncp_basic/ncp_basic.c:40-66 | requests with the literal ids 0 to 3 and four address bytes, and characters from 4 on, in any pieces: each executed or printed once, in order, up to the first reset |
| `CommandStream.Conservation` | examples/helper/ncp_basic/ncp_basic.c:162-191 | events and partial command spell exactly the bytes fed; a reset drops only what follows it |
| `CommandStream.SerialTx` | examples/helper/ncp_basic/serial_rpmsg.c:124-144 | the pieces sent are non-empty, at most the payload size, all but the last full, and concatenate to the data |
| `SerialPorts.VotesAndNoStrandedBytes` | examples/helper/ncp_basic/serial_rpmsg.c:65-122 | in every interleaving, told from the events alone: one vote for each port with a callback and no test since, a callback due exactly for bytes come since the last one; a non-empty ring is pending, due or being drained, and holds a vote once its callback has run and no test has |
| `SerialPorts.StepKeepsInv` | examples/helper/ncp_basic/serial_uart.c:63-131 | each step keeps the votes, the no-stranded-bytes invariant and received = taken + ring |
| `SerialPorts.TimingIndependent` | examples/helper/ncp_basic/serial_rpmsg.c:94-122 | in every reachable state what was decoded depends only on the bytes received less those still in the ring |
| `SerialPorts.OnePassDrains` | examples/helper/ncp_basic/serial_rpmsg.c:94-122 | from every reachable state the steps outstanding on a port (of drain, callback, test and drain) are possible in order and leave it with an empty ring, nothing due or pending and its vote given back; the other port keeps its state and vote |
| `SerialPorts.BothPassesAllowSleep` | examples/helper/ncp_basic/serial_uart.c:63-131 | after a pass on both ports with nothing received in between no vote is left |
| `Logging.LogRing.Add` | src/common/logging.c:126-148 | accepted exactly if the test passes; then the framed record is written cyclically from `in` and nothing else changes |
| `Logging.LogRing.Consume` | src/common/logging.c:88-120 | returns as many bytes after `out` as the stored length says, going round as often as needed, or nothing when empty or too long for the caller; the space is a 32-bit count |
| `Logging.FrameLayout` | src/common/logging.c:132-135 | byte for byte: the length in two bytes, high byte first, then the record |
| `Logging.AddRepresents` | src/common/logging.c:132-145 | an accepted record that fits with its header joins the end of the queue, across every wrap position |
| `Logging.ConsumeRepresents` | src/common/logging.c:93-117 | consuming hands out the oldest record and leaves the rest |
| `Logging.RingIsFifo` | src/common/logging.c:76-148 | every run within capacity answers as a queue does |
| `Logging.QueueConserves` | src/common/logging.c:76-148 | records taken followed by records left are the records there before followed by those accepted |
| `Logging.AcceptedIsSafeIff` | src/common/logging.c:131-143 | an accepted size is safe for every record of that size if and only if it fits next to the stored headers |
| `Logging.FifoIff` | src/common/logging.c:88-148 | from any wrap position, a run of calls with records of given sizes, cut anywhere and followed by one read by a reader that can take them, answers as a queue whatever the bytes if and only if outstanding records and headers fit at each point |
| `Logging.EqualRecordsIff` | src/common/logging.c:88-148 | a new ring of any size answers as a queue on all runs of Adds of n-byte records and reads in any order, whatever the bytes, if and only if the test refuses one record more than fit with their headers |
| `LoggerRecords.ShippedRingIff` | src/common/logging.c:183-195 | with the default 51200-byte ring, the dump task's 256-byte buffer and records of n bytes (3 to 256) that end with CR LF NUL as the logger's do, the dump task reads the oldest record after every number of them, whatever the text, if and only if n is 3 |
| `LoggerRecords.SlottedQueue` | src/common/logging.c:88-148 | with records without text, a ring whose size five divides is a queue on every run, even beyond its capacity |
| `RateLimiter.TokenBucket.Take` | src/common/lwip/token_bucket.c:88-107 | takes all or nothing: exactly if the thousandths are there, and the level falls by what was taken, so a refusal leaves it alone |
| `RateLimiter.TokenBucket.CanTake` | src/common/lwip/token_bucket.c:109-127 | true exactly when Take would succeed |
| `RateLimiter.TokenBucket.Callback` | src/common/lwip/token_bucket.c:133-164 | adds one increment modulo 2^32 and clamps at the rate |
| `RateLimiter.AmountsFit` | src/common/lwip/token_bucket.c:42-43 | the rates and amounts the asserts let through are exactly those whose thousandths fit 32 bits |
| `RateLimiter.PeriodIsLongest` | src/common/lwip/token_bucket.c:69-76 | the timer period is one tick from rate 1000 on, otherwise the longest with at least `rate` expiries a second, and the divisor is the number of whole periods in a second |
| `RateLimiter.IncrementBounds` | src/common/lwip/token_bucket.c:66-78 | no division by zero; the increment is at least rate thousandths, and the largest with which a second of expiries adds at most rate tokens |
| `RateLimiter.Balance` | src/common/lwip/token_bucket.c:88-164 | over every run, to the thousandth, wrapping or not: what was granted and is left is what was there and what the refills added, told from the level before each |
| `RateLimiter.IdealIff` | src/common/lwip/token_bucket.c:88-164 | the 32-bit bucket answers every run of takes and refills as a token bucket on unbounded numbers if and only if the rate is at most 4290676 |
| `RateLimiter.Envelope` | src/common/lwip/token_bucket.c:88-164 | over any run, wrapping or not, tokens stay within the rate and thousandths granted are at most the level plus one increment per refill |
| `RateLimiter.RateEnvelope` | src/common/lwip/token_bucket.c:55-164 | from any reachable state a window of at most a second's refills grants at most twice the rate |
| `RateLimiter.WrapsIff` | src/common/lwip/token_bucket.c:142-160 | some run reaches a wrapping refill if and only if the rate exceeds 4290676 |
| `RateLimiter.FullAfterASecondIff` | src/common/lwip/token_bucket.c:66-78 | every untouched bucket of a rate is full after one refill more than a second has if and only if the rate is at most 4290676 |
| `RateLimiter.HighRatesFallBack` | src/common/lwip/token_bucket.c:142-160 | above that rate, from the levels it names the thousandth refill leaves less than a thousandth of the rate |
| `RateLimiter.AvailableAfterASecondIff` | src/common/lwip/token_bucket.c:88-164 | after any run of calls and that many refills any amount up to the rate is granted, if and only if the rate is at most 4290676 |
| `LockOrder.NoCircularWait` | src/common/lwip/ot_lwip.h:65-95 | in every reachable state waiting leads to a strictly lower rank, and whoever waits for the core lock or the mailbox does not hold the OT lock |
| `LockOrder.ReachableExclusive` | src/common/lwip/ot_lwip.h:65-95 | each lock has at most one holder in every reachable state |
| `LockOrder.LocksBalance` | src/common/lwip/ot_lwip.h:65-95 | in every reachable state, told from the actions alone: each task holds each lock as often as it took it less gave it back, the mailbox holds what was put less fetched within its size, one callback per message; a client in no macro holds the OT lock as often as it entered and went deeper less left, and not the core lock |
| `LockOrder.MacroRestores` | src/common/lwip/ot_lwip.h:65-95 | a completed CALL or POST leaves the OT lock held as often as at its start and the core lock free, whatever the others do meanwhile |
| `LockOrder.NotWaitingMoves` | src/common/lwip/ot_lwip.h:65-95 | a task that waits on no one can step, unless it is the TCP/IP task with no mail |
| `LockOrder.SomeTaskCanStep` | src/common/lwip/ot_lwip.h:65-95 | in every reachable state, from every task at most three waits lead to a task with an enabled step, unless the task is the TCP/IP task with no mail |
| `LockOrder.StuckForever` | src/common/lwip/ot_lwip.h:65-95 | tasks that wait on each other in a closed set never step again, whatever the others do |
| `LockOrder.RetakeDeadlocks` | src/common/lwip/ot_lwip.c:397-405 | retaking the core lock under the OT lock can deadlock with the CALL macro: a run |
| `LockOrder.DeadlocksIff` | src/common/lwip/ot_lwip.h:65-95 | a set of tasks, of any size, each waiting on a member is reachable if and only if a macro is used with the OT lock held more than once or the retaking path is in use |
| `MdnsOwnership.SendMessage` | src/common/br/mdns_socket.c:267-375 | on every path of SendMulticast and SendUnicast, with other tasks stepping before the post, the message is posted or freed once, never both, and the context is kept exactly if posted |
| `MdnsOwnership.ProcessQueue` | src/common/br/br_rtos_manager.c:304-323 | while other tasks add packets, switch listening and use the mailbox, the loop processes all that was queued or came meanwhile, each as its own room and conversion say, delivers the right ones in order, and keeps all ownership invariants |
| `MdnsOwnership.MessagesFreedExactlyOnce` | src/common/br/mdns_socket.c:400-451 | in every run no message is freed twice, and with nothing in flight each was freed once and no context is left |
| `MdnsOwnership.EverythingCompletes` | src/common/br/mdns_socket.c:128-451 | from every reachable state the tasks can bring what is in flight to an end: every message freed, no context left, every packet not lost before released |
| `MdnsOwnership.PacketsReleasedOnce` | src/common/br/mdns_socket.c:128-190 | no packet is released twice, and with nothing in flight each was released or lost once |
| `MdnsOwnership.DeliveredExactly` | src/common/br/mdns_socket.c:128-187 | the packets given to OpenThread are, in order, those of the packets accepted that were processed while enabled, with room, and converted, as told from the schedule alone |
| `MdnsOwnership.DeliveredInOrder` | src/common/br/br_rtos_manager.c:284-323 | each delivered packet is the arrival at its position, and positions strictly grow |
| `MdnsOwnership.EveryPacketReleasedIff` | src/common/br/mdns_socket.c:187-190 | with nothing in flight every packet has been released once if and only if each release found memory and room in the mailbox, as counted from the schedule |
| `MdnsOwnership.EverySizeCanLose` | src/common/br/mdns_socket.c:187-190 | for every mailbox size there is a run with all memory available that loses a delivered packet |
| `MdnsOwnership.NoUseAfterRemove` | src/common/br/mdns_socket.c:246-262 | in a run that disables listening only with no send in flight, no callback uses a removed socket |
| `MdnsOwnership.DisableIsSafeIff` | src/common/br/mdns_socket.c:246-262 | disabling listening is safe, whatever the tasks do until the next switch, if and only if no send is in flight |
| `MdnsOwnership.DisableInFlight` | src/common/br/mdns_socket.c:400-412 | for every mailbox size a run on which the callback uses the removed socket |
| `Forwarding.MatchesPrefixIff` | src/common/br/lwip_hooks.c:54-74 | for every length 0 to 128 the test is true exactly when the first bits agree, whatever follows the arrays in memory |
| `Forwarding.ForwardMulticast` | src/common/br/lwip_hooks.c:79-128 | which multicast packets end here, where they are copied, and how the hop limit changes |
| `Forwarding.IsLegalToForward` | src/common/br/lwip_hooks.c:133-170 | legal exactly when no address is mesh-local and Thread-side traffic is inside no non-domain on-mesh prefix, bit by bit |
| `Forwarding.CanForwardHook` | src/common/br/lwip_hooks.c:186-203 | address by address: multicast from either interface returns 0, relayed with one hop less only from admin-local scope on, to a listened group from the infrastructure side or by the primary router from the Thread side; scope below 4 returns 0 untouched; all else returns 1 exactly when initialised, not mesh-local and, from Thread, inside no on-mesh prefix; never both copied and left to lwIP, never copied back |
| `Forwarding.MulticastCrossesIff` | src/common/br/lwip_hooks.c:79-128 | exactly which multicast packets leave on another interface, for every packet, interface and router state |
| `Forwarding.UnicastCrossesIff` | src/common/br/lwip_hooks.c:133-170 | exactly which others do |
| `Forwarding.MeshLocalCrossesIff` | src/common/br/lwip_hooks.c:156-166 | a mesh-local packet crosses if and only if the hook copies it as multicast |
| `Forwarding.MeshLocalSourceCanCross` | src/common/br/lwip_hooks.c:156-166 | such a packet exists |

## Left out

- FlashSettings.SettingsStore.Get: asks that the memory from the caller's pointer on is at least as long as the value, because nothing can be said of a copy past the end of memory; the capacity the caller offers is not limited.
- The save-immediately build of the settings store (`OT_PLAT_SAVE_NVM_DATA_ON_IDLE` 0) and the NVM calls of `flash_nvm.c`: the buffer algorithm is the same.
- A crash in the middle of one file write: the file layer is a library.
- `flash_nvs.c`, `flash_pdm.c` and overrides of `ramStorageEnsureBlockConsistency`: they rest on libraries that are not part of this model.
- The effects of the individual commands (addresses, NVM copies) of `ncp_basic.c`: memory copies into library structures.
- Loss of received bytes when a serial ring is full, and failing reads: behaviour of the serial manager library.
- That a task which can step does step: fairness belongs to the scheduler.
- The group memberships of `SocketInit` and `SocketDeInit`, what `LwipTaskCb` sends, and the event queue: library calls around the same hand-over pattern.
- `lwipInputHook` and the multicast filter table: they would only add easy members.
- Boards, crypto, CLI, NCP glue, alarms, UART console and the other border-router sockets: wrappers and dispatch tables.
