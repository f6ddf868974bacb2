# fisk: verified model

fisk is a distributed compile system. A scheduler keeps track of builders and of what their object caches hold, builders
run compiles in slots and keep results on disk, a daemon on every machine hands out local slots, and a C++ client
preprocesses, sends and patches. This project models the logic of those parts in Dafny and proves what it is meant to
guarantee. Sockets, files, timers and other processes appear as arbitrary completions, arbitrary chunkings and abstract
files; everything else keeps the source's branches, constants and error paths.

Most components come as a pair. A module of values holds the state, the operations as functions and the theorems about
every run; a class beside it has the source's fields and methods, with the source's loops, and each method's
postcondition says that it performs exactly the function the theorems are about.

| component | values and theorems | class or loops |
|---|---|---|
| scheduler's index of cached objects, transfer planner, pending transfers | `ObjectIndex`, `PendingKeys`, `Distribution`, `DistributionProperties`, `Transfers`, `ManagerState`, `ManagerProperties` | `Planner`, `ObjectCacheManager` |
| builder's object cache and its agreement with the scheduler | `CacheStore`, `CacheSync` | `ObjectCache` |
| cache files on disk | `DiskFormat`, `PendingWrites` | `PendingItem` |
| client and daemon on the wire, both directions | `Wire`, `ReplyWire` | `ClientBuffer`, `DaemonCompile`, `DaemonSocket` |
| daemon's slots | `SlotRules`, `DaemonRules` | `Slots`, `FiskDaemon` |
| file database, peaks, counters and builder choice of the scheduler | `DatabaseRules`, `PeakRules`, `SchedulerRules` | `Database`, `Peak`, `Scheduler`, `BuilderChoice` |
| builder's job queue and argument rewriting | `JobQueueRules`, `ArgsRules` | `JobQueue`, `ArgsRewrite` |
| client's DWARF patcher and cache-key scan | `Leb128`, `DwarfForms`, `DwarfWalk`, `StringTable`, `RelocPatch`, `DirectPatch`, `DwarfBlocks`, `DwarfPatch` | `DwarfReader`, `LineMarkers` |

`Collections` and `Bytes` hold what the others share. Check everything with `dafny verify dfyconfig.toml`.

## Where the code does less than one would expect

For each of these there is a theorem that says exactly when the code does meet the expectation, or a concrete run that
shows it does not.

- A builder leaving makes the scheduler forget another builder's transfers when the other's address ends in a colon
  followed by the leaver's, as IPv6 addresses can (`Transfers.ForgottenWithNode`, `Transfers.ForgottenWithNodeExample`).
- An object fetched while the same object is being written is counted twice for good (`CacheStore.RunDrift`,
  `CacheStore.LoadWhilePendingDoubleCounts`).
- A response whose JSON is longer than 16384 bytes is cached, and thrown away at the next start (`DiskFormat.ReloadIff`).
- A write under back-pressure is answered before what the drain sent again is on disk, so a finished file can be judged
  too short and thrown away (`PendingWrites.SizeCheck`, `PendingWrites.ThrownAwayExample`).
- After a reconnect a write begun for the earlier connection can make the scheduler list what the builder does not have,
  and forget what it has (`CacheSync.Agreement`, `CacheSync.OlderPurgesExample`).
- A pid of 0, an empty JSON payload or one of 2^32 bytes is not recovered by the daemon (`Wire.RecoveredExactly`), and a
  payload of 2^32 - 5 bytes or more not by the client (`ReplyWire.RecoveredExactly`, `ReplyWire.Redelivered`).
- A waiting job that closes starts another one although no slot became free (`JobQueueRules.OverfillsIff`).
- A job that goes in at index `slots` is backlogged without being told to wait (`JobQueueRules.BackloggedUntold`).
- A peak read in the millisecond of a record leaves out what is exactly one interval old (`PeakRules.ReadsOpenWindowMax`).
- Two builders at one address and port share one entry of the builders record (`SchedulerRules.RecordExactIff`).
- An empty argument counts as a source file but does not forbid another (`ArgsRules.RewriteIff`,
  `ArgsRules.EmptyArgumentIsASource`).
- A number sign, space and digit inside a line, as in a string literal, removes the rest of that line from the cache key
  (`LineMarkers.LineMarkersOnlyIff`).
- The preprocessor's output is scanned past its end, up to the next NUL in memory, or not even to its end if it has one
  itself (`LineMarkers.ScansTheOutput`).
- The DIE walk does not pass the payload of a block (`DwarfBlocks.FindsInFront`, `DwarfBlocks.BlocksMisplace`).
- Without relocations only the first copy of the old path is renamed (`DirectPatch.RenamedIffFirst`), and of its directory
  only the first copy and only when the path itself is in the table (`DirectPatch.DirRenamedIffFirst`,
  `DirectPatch.DirKeptExample`); and a `line_strp` attribute that happens to hold the same number is rewritten too
  (`DwarfPatch.UnitSoundIff`, `DirectPatch.LineStrpExample`).

## Model

| member | source | states |
|---|---|---|
| `ObjectIndex.AddToSha1MapEffect` | src/scheduler/ObjectCacheManager.ts:12-22 | recording a holder adds exactly that pair and keeps every holder list non-empty and duplicate-free |
| `ObjectIndex.RemoveFromSha1MapEffect` | src/scheduler/ObjectCacheManager.ts:24-39 | removing a holder removes exactly that pair; an object without holders disappears from the map |
| `ObjectIndex.InsertKeepsInverse` | src/scheduler/ObjectCacheManager.ts:100-123 | after `insert` the by-object and by-builder maps are still exact inverses of each other |
| `ObjectIndex.RemoveKeepsInverse` | src/scheduler/ObjectCacheManager.ts:125-147 | the same after `remove`, whether or not the pair was there |
| `ObjectIndex.AddNodeKeepsInverse` | src/scheduler/ObjectCacheManager.ts:149-171 | after a sync message the maps are inverses if and only if its keys are distinct |
| `ObjectIndex.RemoveNodeForgets` | src/scheduler/ObjectCacheManager.ts:173-185 | after `removeNode` the maps are inverses, the builder holds nothing and every other holder is untouched |
| `ObjectIndex.InsertRecords` | src/scheduler/ObjectCacheManager.ts:100-123 | an insertion records the size of an object that is not known yet and keeps that of one that is, puts the builder behind the other holders, takes over the cache size, keeps the builder's maximum and changes no other entry |
| `ObjectIndex.RemoveRecords` | src/scheduler/ObjectCacheManager.ts:125-147 | a removal takes the pair away and takes over the cache size; sizes of objects, the builder's maximum and everybody else's entries stay |
| `ObjectIndex.AddNodeRecords` | src/scheduler/ObjectCacheManager.ts:149-171 | a sync message records the builder's cache size, maximum and list as they are, and each object not known yet with the size it gives |
| `ObjectIndex.RemoveNodeRecords` | src/scheduler/ObjectCacheManager.ts:173-185 | a departure takes the entry away and changes neither the others' entries nor the size of an object that is left |
| `PendingKeys.KeyInjective` | src/scheduler/ObjectCacheManager.ts:41-43 | two pending keys are equal exactly when object and address are |
| `PendingKeys.PrefixFindsSha` | src/scheduler/ObjectCacheManager.ts:395-403 | the prefix test finds exactly the keys of the wanted object |
| `PendingKeys.SuffixFindsAddress` | src/scheduler/ObjectCacheManager.ts:381-393 | the suffix test finds the wanted address, and those that end in a colon and that address |
| `Distribution.PicksFacts` | src/scheduler/ObjectCacheManager.ts:276-321 | the builders picked for an object are distinct, each can take it, at most the quota, and fewer only if nobody else can |
| `Distribution.SourceByModulo` | src/scheduler/ObjectCacheManager.ts:316-317 | the round-robin source is the holder at the running index modulo the number of holders |
| `Distribution.WalkStep` | src/scheduler/ObjectCacheManager.ts:279-321 | one turn of the wrap-around cursor: a suitable builder is taken, any other only passed, and no builder is looked at twice |
| `Distribution.WalkEnd` | src/scheduler/ObjectCacheManager.ts:279-321 | when the quota is met or the cursor is back where it started, the loop has done what the rotation-and-pick description of one object says |
| `DistributionProperties.ObjectServed` | src/scheduler/ObjectCacheManager.ts:273-321 | an object is given copies until redundancy + 1 are held, on their way or planned, unless the maximum is used up, all builders but one are sent it, or every builder holds it, awaits it, is not the one asked for or has no room |
| `DistributionProperties.ProcessKeepsPlanOk` | src/scheduler/ObjectCacheManager.ts:269-323 | serving one more object keeps capacity, redundancy, destinations, sources, the maximum and the completeness of all objects served before |
| `DistributionProperties.PlanIsSound` | src/scheduler/ObjectCacheManager.ts:258-336 | every plan: transfers only from holders to builders that neither hold nor await the object; planned bytes within each builder's free space; copies at most redundancy + 1; at most `max` transfers; fewer copies only when the maximum is used up or nobody can take another |
| `DistributionProperties.PlanIsComplete` | src/scheduler/ObjectCacheManager.ts:258-336 | with two builders or more, for every object asked for: the maximum is used up, or holders, pending and planned copies come to redundancy + 1, or each builder is sent the object, holds it, awaits it, is not the one asked for, or has less room left between its maximum, its size and what is planned for it than the object takes |
| `DistributionProperties.PlanFits` | src/scheduler/ObjectCacheManager.ts:258-313 | a builder's size and the sizes of what is planned for it stay within its maximum |
| `DistributionProperties.ServedInOrder` | src/scheduler/ObjectCacheManager.ts:332-334 | whatever the maximum: if an object is sent to anybody, every object in front of it has been served |
| `DistributionProperties.NextInLine` | src/scheduler/ObjectCacheManager.ts:276-321 | copies go to the builders in index order from behind the cursor on: no builder that could take a copy is passed over for a later one |
| `DistributionProperties.CursorMoves` | src/scheduler/ObjectCacheManager.ts:276-323 | the next object starts behind the last builder served, or one builder on when nobody was left who could take a copy |
| `DistributionProperties.SourcesTakeTurns` | src/scheduler/ObjectCacheManager.ts:316-317 | over the whole plan transfer k of an object's picks comes from holder k modulo the number of holders |
| `Planner.PendingCount` | src/scheduler/ObjectCacheManager.ts:395-403 | the loop counts exactly the pending keys of the object |
| `Planner.TryNode` | src/scheduler/ObjectCacheManager.ts:288-320 | the chain of continues accepts a builder exactly when it can take a copy, and then adds one transfer from the next source |
| `Planner.Scan` | src/scheduler/ObjectCacheManager.ts:276-321 | the loop over the wrap-around cursor ends and computes the one-object step the guarantees are about |
| `Planner.Turn` | src/scheduler/ObjectCacheManager.ts:277-321 | one turn of it: on to the next builder, the stop when the walk has come round, and the copy taken or not |
| `Planner.ProcessOne` | src/scheduler/ObjectCacheManager.ts:269-323 | `processObject` with its early returns is that step |
| `Planner.ProcessEvery` | src/scheduler/ObjectCacheManager.ts:332-334 | the loop over all objects serves them in insertion order, one step each |
| `Planner.MakePlan` | src/scheduler/ObjectCacheManager.ts:258-336 | the planner, loops and all, computes the plan that is proved sound and complete |
| `Transfers.AddOk` | src/scheduler/ObjectCacheManager.ts:360-369 | adding a transfer keeps one live timer per pending key if and only if the key was not pending already |
| `Transfers.ClearOk` | src/scheduler/ObjectCacheManager.ts:371-379 | clearing removes the key and its timer and keeps the correspondence |
| `Transfers.ClearSuffixOk` | src/scheduler/ObjectCacheManager.ts:381-393 | clearing a builder's keys keeps it too |
| `Transfers.ExpireOk` | src/scheduler/ObjectCacheManager.ts:363-366 | a timer that fires removes exactly its own transfer |
| `Transfers.PrefixCountIsAwaiting` | src/scheduler/ObjectCacheManager.ts:395-403 | with distinct addresses the prefix count is the number of builders awaiting the object |
| `Transfers.ForgottenWithNode` | src/scheduler/ObjectCacheManager.ts:381-393 | a transfer to another builder survives a departure if and only if the other's address is not, and does not end in a colon and, the leaver's |
| `Transfers.ForgottenWithNodeExample` | src/scheduler/ObjectCacheManager.ts:381-393 | two connected IPv6 builders in a well-formed state: when the one leaves, the object only the other waits for is no longer pending |
| `ManagerState.KeysForFresh` | src/scheduler/ObjectCacheManager.ts:346-351 | the keys added for one builder are distinct, not pending yet, and each names an object it lacks |
| `ManagerState.DistributeKeepsOk` | src/scheduler/ObjectCacheManager.ts:230-358 | sending a plan keeps the manager's invariant: exact inverses, pending keys equal to timer keys, each naming a known builder that lacks the object |
| `ManagerState.DistributeCopies` | src/scheduler/ObjectCacheManager.ts:269-352 | after a plan is sent, each object it moved has at most redundancy + 1 copies held or on their way |
| `ManagerState.RecordedKeepsOk` | src/scheduler/ObjectCacheManager.ts:110-116 | an arrived object stops being pending and the invariant holds |
| `ManagerState.RemoveBuilderKeepsOk` | src/scheduler/ObjectCacheManager.ts:173-185 | the invariant holds after a builder leaves with transfers under way |
| `ManagerState.StepKeepsOk` | src/scheduler/ObjectCacheManager.ts:78-185 | every operation and every timeout keeps the invariant |
| `ManagerState.RunIsOk` | src/scheduler/ObjectCacheManager.ts:52-393 | the invariant holds at every point of every run |
| `ManagerProperties.DistributeSends` | src/scheduler/ObjectCacheManager.ts:230-358 | a query that is not dry sends each builder at most one message, each transfer in it with a reason (the object asked for or any held one, from a holder, to a builder that lacks it, is not awaiting it, is the one asked for and has room), makes exactly these transfers pending and changes nothing else; a dry one changes nothing |
| `ManagerProperties.DistributeReplicates` | src/scheduler/ObjectCacheManager.ts:258-358 | afterwards, unless the maximum is used up, each object asked for has redundancy + 1 copies held or pending, or each builder holds it, awaits it, is not the one asked for or has no room |
| `ManagerProperties.InsertReplicates` | src/scheduler/ObjectCacheManager.ts:100-123 | after an insertion with the flag on the object is replicated like that, and nothing is sent if redundancy + 1 builders held it already; with the flag off, or from an unknown builder, nothing is sent |
| `ManagerProperties.HitReplicates` | src/scheduler/ObjectCacheManager.ts:88-93 | a hit is counted, and with its flag on leaves the object replicated like that; with it off nothing else happens |
| `ManagerProperties.OthersSendNothing` | src/scheduler/ObjectCacheManager.ts:78-185 | the other operations and the timers send nothing; which transfers each stops waiting for |
| `ObjectCacheManager.Manager.Insert` | src/scheduler/ObjectCacheManager.ts:100-123 | the method does to the fields what the run theorem's insert step does, including the distribution it triggers |
| `ObjectCacheManager.Manager.RemoveObject` | src/scheduler/ObjectCacheManager.ts:125-147 | the same for `remove` |
| `ObjectCacheManager.Manager.AddNode` | src/scheduler/ObjectCacheManager.ts:149-171 | the same for `addNode` |
| `ObjectCacheManager.Manager.RemoveNode` | src/scheduler/ObjectCacheManager.ts:173-185 | the same for `removeNode`, loop included |
| `ObjectCacheManager.Manager.Hit` | src/scheduler/ObjectCacheManager.ts:88-93 | the same for `hit` |
| `ObjectCacheManager.Manager.Clear` | src/scheduler/ObjectCacheManager.ts:78-86 | the same for `clear`: the running timers of all pending transfers are stopped |
| `ObjectCacheManager.Manager.Distribute` | src/scheduler/ObjectCacheManager.ts:230-358 | plans, marks the new transfers pending, sends the messages unless dry, and returns the number of planned transfers |
| `ObjectCacheManager.Manager.Timeout` | src/scheduler/ObjectCacheManager.ts:363-366 | the timer callback forgets exactly its transfer |
| `ObjectCacheManager.Manager.ClearAllPendingForNode` | src/scheduler/ObjectCacheManager.ts:381-393 | the deleting iteration removes exactly the keys with the suffix and stops their timers |
| `CacheStore.StepDrift` | src/builder/ObjectCache.ts:103-300 | `size` minus the stored bytes changes only when a finished write replaces an entry, and then by that entry's size |
| `CacheStore.RunDrift` | src/builder/ObjectCache.ts:103-300 | in every run `size` is the stored bytes plus everything ever counted twice |
| `CacheStore.RunExact` | src/builder/ObjectCache.ts:103-300 | without a load under a key being written: `size` is exact, nothing is both stored and pending, and the cache rests within its maximum or its purge size |
| `CacheStore.LoadWhilePendingDoubleCounts` | src/builder/ObjectCache.ts:103-138 | a run in which a fetch finishes during a write and `size` is twice what is stored |
| `CacheStore.PurgeIsShortest` | src/builder/ObjectCache.ts:283-291 | a purge removes exactly the shortest least-recent prefix that gets within the target, and leaves the rest in place |
| `CacheStore.ClearEmpties` | src/builder/ObjectCache.ts:170-172 | `clear` empties the cache, and `size` becomes exactly the miscounted bytes |
| `CacheStore.StepKeepsRecency` | src/builder/ObjectCache.ts:103-300 | every operation keeps the iteration order equal to the order of last use |
| `CacheStore.RunRecency` | src/builder/ObjectCache.ts:283-300 | in every run the cache lists its keys by last use |
| `CacheStore.LoadContents` | src/builder/ObjectCache.ts:103-158 | a file is taken in if and only if its key is new, its name has 40 characters and is the key recorded in it, its JSON has 10 to 16384 bytes, and 4 bytes, JSON and contents make up its length; then it is stored last and the cache shrinks if it is above its maximum |
| `CacheStore.AddContents` | src/builder/ObjectCache.ts:174-202 | a key that is not empty, not pending and not stored becomes pending |
| `CacheStore.WriteContents` | src/builder/ObjectCache.ts:198-247 | a write that ends well or badly stops being pending, and stores the entry if and only if the file has its full length; a write that is no longer the pending one changes nothing |
| `CacheStore.ReadContents` | src/builder/ObjectCache.ts:293-300 | a read moves the entry to the end, and changes nothing if it is not to be touched |
| `CacheStore.RemoveContents` | src/builder/ObjectCache.ts:271-281 | a removal takes the entry out of its place and its bytes out of `size` |
| `CacheStore.PurgeContents` | src/builder/ObjectCache.ts:283-291 | a purge loses the least recent entries, as many as it takes to get within the target and no more |
| `CacheStore.Announces` | src/builder/ObjectCache.ts:133-281 | the scheduler is told of an object that is stored with its file's length, and of one that goes with its own |
| `CacheStore.SyncItemsAre` | src/builder/ObjectCache.ts:302-308 | the sync message lists every object in cache order with the length of its file |
| `ObjectCache.Cache.constructor` | src/builder/ObjectCache.ts:48-89 | loads the directory file by file into an empty cache |
| `ObjectCache.Cache.LoadFile` | src/builder/ObjectCache.ts:103-158 | accepts, counts, announces and purges as the run theorems' load step does; a bad file changes nothing |
| `ObjectCache.Cache.Add` | src/builder/ObjectCache.ts:174-202 | marks a key pending once; fails exactly for a key that is stored and not pending |
| `ObjectCache.Cache.Written` | src/builder/ObjectCache.ts:207-247 | a finished write is stored, counted and announced if the file has the right size, and stops being pending either way |
| `ObjectCache.Cache.WriteError` | src/builder/ObjectCache.ts:198-201 | a failed write only stops being pending |
| `ObjectCache.Cache.Remove` | src/builder/ObjectCache.ts:271-281 | removes, subtracts and announces a stored key; any other is ignored |
| `ObjectCache.Cache.Purge` | src/builder/ObjectCache.ts:283-291 | the loop that deletes while it iterates removes the shortest sufficient prefix and announces each removal with the size after it |
| `ObjectCache.Cache.Clear` | src/builder/ObjectCache.ts:170-172 | a purge to zero |
| `ObjectCache.Cache.Get` | src/builder/ObjectCache.ts:293-300 | returns the entry and moves it to the end unless told not to |
| `ObjectCache.Cache.SyncData` | src/builder/ObjectCache.ts:302-308 | every key with its size, in order |
| `CacheSync.ChangesAgree` | src/builder/ObjectCache.ts:133-291 | whatever the cache does, replaying the messages it sends does the same to the scheduler's record of it |
| `CacheSync.OlderAgrees` | src/builder/fisk-builder.ts:233-253 | a write begun for an earlier connection, when it ends, leaves a right record right if and only if the current cache has the file too, unless the older cache purges it at once, and holds nothing of what the older one purges |
| `CacheSync.HandleIsReplay` | src/scheduler/ObjectCacheManager.ts:100-171 | the scheduler's handling of one message is that replay, on this builder's entry |
| `CacheSync.OthersKeepEntry` | src/scheduler/ObjectCacheManager.ts:100-185 | messages and departures of other builders leave the entry as it is |
| `CacheSync.ConnectAgrees` | src/builder/fisk-builder.ts:647-664 | the sync message sent on connecting describes the cache exactly, with distinct keys |
| `CacheSync.StepKeepsInv` | src/builder/fisk-builder.ts:233-253 | cache steps, writes of older caches, deliveries and other builders, in any order, keep the record a duplicate-free list and both maps inverse |
| `CacheSync.StepKeepsAgreement` | src/builder/fisk-builder.ts:233-253 | each step keeps record plus channel equal to the cache, a write of an older cache if and only if it is harmless |
| `CacheSync.Agreement` | src/scheduler/fisk-scheduler.ts:830-857 | the record after the messages in flight is the builder's key set and size at every point of a run if and only if no write begun for an earlier connection ends harmfully during it |
| `CacheSync.AgreementWhenQuiet` | src/builder/Client.ts:110-115 | if nothing is being written for an earlier connection when this one opens, it is so in every interleaving from then on; with an empty channel the record and the by-object index say so already |
| `CacheSync.MaxIsTheBuilders` | src/builder/fisk-builder.ts:647-664 | at every point of every run a builder that the scheduler knows is recorded with its own maximum |
| `CacheSync.OlderPurgesExample` | src/builder/ObjectCache.ts:207-232 | a run in which an older cache ends a write and purges: the record lists what the builder does not have, and not what it has |
| `ClientBuffer.Buffer.Available` | src/daemon/ClientBuffer.ts:10-12 | the number of bytes written and not yet read |
| `ClientBuffer.Buffer.Write` | src/daemon/ClientBuffer.ts:14-17 | the chunk goes to the end of the byte queue |
| `ClientBuffer.Buffer.Peek` | src/daemon/ClientBuffer.ts:19-24 | the first byte of the queue, or an error when there is none |
| `ClientBuffer.Buffer.Read` | src/daemon/ClientBuffer.ts:26-71 | takes exactly the first bytes of the queue, across chunks if need be; an impossible length changes nothing |
| `Wire.LoopEmits` | src/daemon/Compile.ts:99-159 | one run of the loop emits exactly the owed messages that are complete, in order, and keeps the rest |
| `Wire.RoundTrip` | src/daemon/Compile.ts:55-160 | for every pid but 0, every list of commands and non-empty payloads and every chunking: exactly those messages, in order, with nothing kept |
| `Wire.RecoveredExactly` | src/daemon/Compile.ts:55-160 | every chunking delivers the messages if and only if there are none, or the pid is not 0 and every payload has 1 to 2^32 - 1 bytes |
| `Wire.PidZeroLosesBytes` | src/daemon/Compile.ts:73-84 | with a pid of 0 no list of messages but the empty one arrives |
| `Wire.StreamAppend` | src/client/DaemonSocket.cpp:185-206 | queueing one more command or payload appends its encoding to the stream |
| `Wire.EncodedAs` | src/client/DaemonSocket.cpp:185-206 | a command is its byte, 1 to 4, 6 or 7; a payload follows a 5 and its length in four bytes, the highest first |
| `Wire.LegalArrive` | src/daemon/Compile.ts:55-160 | every list of such commands and payloads behind a pid that is not 0 arrives, under every chunking |
| `Wire.NextByte` | src/daemon/Compile.ts:99-159 | behind what has arrived: each of the six command bytes is its command, a complete payload behind a 5 is delivered or ends the connection if it does not parse, and a 0 or a byte above 7 makes the daemon throw |
| `DaemonCompile.Compile.OnData` | src/daemon/Compile.ts:55-160 | the parser over the chunk buffer takes the same steps as the parser over a plain byte sequence |
| `DaemonCompile.Compile.Drain` | src/daemon/Compile.ts:99-159 | the while loop with its two levels of break is the recursive loop of the theorems |
| `DaemonCompile.Compile.Send` | src/daemon/Compile.ts:31-53 | writes a slot byte or a complete length-prefixed frame, or nothing at all |
| `ReplyWire.ProcessFrame` | src/client/DaemonSocket.cpp:263-313 | a whole written reply at the front is given first and once, if its frame has fewer than 2^32 bytes, and what follows is processed as if it stood alone |
| `ReplyWire.ProcessPartial` | src/client/DaemonSocket.cpp:263-313 | a proper prefix of a frame yields nothing and is kept |
| `ReplyWire.ReceiveWhole` | src/client/DaemonSocket.cpp:118-157 | however the bytes are cut up, what is kept depends on the bytes alone, and so do the replies when each moves the client on |
| `ReplyWire.ReceivePrefix` | src/client/DaemonSocket.cpp:118-157 | after any chunks of a stream of such replies the client has the first ones sent, and keeps a proper prefix of the next |
| `ReplyWire.RecoveredExactly` | src/client/DaemonSocket.cpp:118-157 | under any chunking of what the daemon sends, the client has exactly what was written, in order, and keeps nothing, if and only if every written payload has fewer than 2^32 - 5 bytes |
| `ReplyWire.Redelivered` | src/client/DaemonSocket.cpp:287-300 | a payload of exactly 2^32 - 5 bytes is delivered again every time bytes arrive, and nothing behind it ever is |
| `ReplyWire.EncodedAs` | src/daemon/Compile.ts:31-53 | a slot is its byte, 10, 11 or 13; a payload follows a 12 and its length in four bytes, the highest first |
| `ReplyWire.LegalArrive` | src/client/DaemonSocket.cpp:118-157 | every list of such slots and of payloads of fewer than 2^32 - 5 bytes arrives, under every chunking |
| `ReplyWire.OtherByteBlocks` | src/client/DaemonSocket.cpp:263-313 | behind a byte other than 10 to 13 nothing is ever received |
| `DaemonSocket.Socket.SendCommand` | src/client/DaemonSocket.cpp:185-190 | appends the command's byte to what is to be sent |
| `DaemonSocket.Socket.SendJson` | src/client/DaemonSocket.cpp:192-206 | appends the frame of the payload |
| `DaemonSocket.Socket.Write` | src/client/DaemonSocket.cpp:159-183 | for every pattern of partial writes the kernel has taken a prefix of what was queued, and all of it once the buffer is empty |
| `DaemonSocket.Socket.OnRead` | src/client/DaemonSocket.cpp:118-157 | gives and keeps exactly what passes over the old remainder and the new bytes give and keep |
| `DaemonSocket.ProcessMessage` | src/client/DaemonSocket.cpp:263-313 | one pass over the buffer, with the size of a frame added up in 32 bits |
| `SlotRules.AcquireKeepsOk` | src/daemon/Slots.ts:53-68 | the caller holds a slot at once if one is free and is last in line otherwise; nobody else is affected |
| `SlotRules.TryAcquireKeepsOk` | src/daemon/Slots.ts:40-51 | holds if and only if it held already or a slot was free |
| `SlotRules.ReleaseKeepsOk` | src/daemon/Slots.ts:70-90 | the caller neither holds nor waits; if it held, exactly the first in line holds instead; the rest keep their order |
| `SlotRules.NoOvertaking` | src/daemon/Slots.ts:40-90 | over any run, who asked second stays behind who asked first until the first is served or lets go |
| `Slots.Pool.TryAcquire` | src/daemon/Slots.ts:40-51 | the method on the map of holders; true exactly when a slot was free |
| `Slots.Pool.Acquire` | src/daemon/Slots.ts:53-68 | the method on both maps; says whether the callback ran at once |
| `Slots.Pool.Release` | src/daemon/Slots.ts:70-90 | the method on both maps; both assertions in it hold; says whose callback ran |
| `DaemonRules.GrantAgrees` | src/daemon/fisk-daemon.ts:171-182 | flags, holders, waiters and replies agree after a slot is granted |
| `DaemonRules.WaitAgrees` | src/daemon/fisk-daemon.ts:197-208 | they agree after a request is put in line |
| `DaemonRules.ClearAgrees` | src/daemon/fisk-daemon.ts:184-220 | they agree after a slot or a place in line is given up |
| `DaemonRules.PromoteAgrees` | src/daemon/Slots.ts:80-87 | they agree after the next in line is granted the slot and told |
| `DaemonRules.CloseKeeps` | src/daemon/fisk-daemon.ts:295-332 | the error and end handlers keep the daemon's invariant, whichever comes first or twice |
| `DaemonRules.AlreadyClosed` | src/daemon/fisk-daemon.ts:295-332 | the second of the two changes nothing |
| `DaemonRules.StepKeepsInv` | src/daemon/fisk-daemon.ts:168-332 | every handler, and a compiler lookup that settles at any time, keeps the invariant |
| `DaemonRules.StepIsOneOp` | src/daemon/fisk-daemon.ts:168-332 | each event does at most one permitted operation to each pool |
| `DaemonRules.ReachableSlots` | src/daemon/fisk-daemon.ts:168-332 | in every reachable state no pool is overfull, nobody waits while a slot is free, nobody both holds and waits, and everyone who does either is a live connection that asked |
| `DaemonRules.ClosedTakesNothing` | src/daemon/fisk-daemon.ts:222-332 | a closed connection holds and awaits nothing, no callback of its is left, and a lookup that settles later takes nothing |
| `DaemonRules.ToldIffHolds` | src/daemon/fisk-daemon.ts:168-332 | a live connection has been told of a slot exactly while it holds one |
| `DaemonRules.GrantsInOrder` | src/daemon/fisk-daemon.ts:168-332 | over every run of the daemon, while two connections stay, the one that asked second is not granted a slot first |
| `DaemonRules.AskedIsServed` | src/daemon/fisk-daemon.ts:171-208 | whoever asks for a cpp or compile slot holds one and has been told if one was free, and is last in line otherwise; nobody else is affected |
| `DaemonRules.LookedUpIsServed` | src/daemon/fisk-daemon.ts:243-281 | when a lookup settles a live connection has a local slot if it may and one is free, else a cpp slot or the last place in the cpp line, unless it has asked for a cpp slot before; a closed one takes nothing |
| `DaemonRules.ReleaseFrees` | src/daemon/fisk-daemon.ts:184-220 | a release gives up the slot or the place in line of one pool, and nothing of the others; if a slot became free the first in line holds it and is told |
| `DaemonRules.CloseFrees` | src/daemon/fisk-daemon.ts:295-332 | a close does so for every pool the connection had asked, and a second one changes nothing |
| `DaemonRules.StartsIdle` | src/daemon/fisk-daemon.ts:136-243 | a connection starts with nothing asked for, and `acquireSlot` only starts a lookup |
| `FiskDaemon.Daemon.Connect` | src/daemon/fisk-daemon.ts:136-170 | a new connection with its flags down |
| `FiskDaemon.Daemon.Acquire` | src/daemon/fisk-daemon.ts:171-208 | the acquire handlers on the shared pool objects: raise the flag, acquire, tell the connection if granted |
| `FiskDaemon.Daemon.ReleaseIfHeld` | src/daemon/fisk-daemon.ts:184-220 | the release handlers, and each clause of the close handlers: whoever is next is told |
| `FiskDaemon.Daemon.AcquireSlot` | src/daemon/fisk-daemon.ts:222-243 | starts a lookup |
| `FiskDaemon.Daemon.LookupSettles` | src/daemon/fisk-daemon.ts:243-281 | local slot, cpp slot or nothing, exactly as the protocol step says |
| `FiskDaemon.Daemon.Close` | src/daemon/fisk-daemon.ts:295-332 | gives back what each flag says was asked for |
| `DatabaseRules.StepKeepsInv` | src/scheduler/Database.ts:16-122 | submissions and completions keep: submitted operations are those settled, the one in flight and the queue, in this order |
| `DatabaseRules.Linearised` | src/scheduler/Database.ts:16-122 | operations settle in submission order, each once, one at a time; a queue means busy |
| `DatabaseRules.RefinesSerial` | src/scheduler/Database.ts:16-111 | for any initial file, every answer is the one a sequential database gives, and the file is what it would leave |
| `DatabaseRules.SerialIsLastSet` | src/scheduler/Database.ts:40-79 | the sequential database holds, for each key, the last successful set |
| `DatabaseRules.GetsLastSet` | src/scheduler/Database.ts:16-38 | from a file that parses, each get yields the last successful earlier set, however submissions and completions interleave |
| `DatabaseRules.NeverPartial` | src/scheduler/Database.ts:50-63 | the file at the path is at every moment the complete result of the successful sets |
| `DatabaseRules.FailsIff` | src/scheduler/Database.ts:16-111 | in every run an operation fails if and only if one of its own completions reported an error or its read met a file that does not parse, and says it quarantined that file exactly when it did; otherwise a get is answered and a set is stored |
| `DatabaseRules.AllSucceed` | src/scheduler/Database.ts:16-79 | from a file that parses, when every completion reports success every get is answered and every set is stored |
| `DatabaseRules.ReplacedByRename` | src/scheduler/Database.ts:50-98 | only a successful rename replaces the file, by the records with the one change, and only a quarantining read takes it away |
| `DatabaseRules.Progress` | src/scheduler/Database.ts:113-121 | every completion brings all submitted operations closer to settled, and something is owed exactly while some are not |
| `Database.Database.Submit` | src/scheduler/Database.ts:16-79 | runs or queues an operation |
| `Database.Database.OnRead` | src/scheduler/Database.ts:81-111 | answers a get, starts a set's write, or rejects and quarantines an unparsable file |
| `Database.Database.OnWrite` | src/scheduler/Database.ts:50-56 | renames after a good write, rejects after a bad one |
| `Database.Database.OnRename` | src/scheduler/Database.ts:56-63 | settles the set |
| `Database.Database.FinishedOperation` | src/scheduler/Database.ts:113-121 | starts the head of the queue or goes idle |
| `PeakRules.RecordKeepsCover` | src/scheduler/Peak.ts:36-55 | the pruned list still stands in for every sample of the open window |
| `PeakRules.ReadKeepsCover` | src/scheduler/Peak.ts:77-92 | and after a read drops what is stale |
| `PeakRules.ReadsWindowMax` | src/scheduler/Peak.ts:77-107 | after any run with times in order, a read later than every record gives the maximum over all samples ever recorded in the closed window, or 0 |
| `PeakRules.ReadsOpenWindowMax` | src/scheduler/Peak.ts:77-107 | a read in the millisecond of a record gives the maximum of the open window, so the closed one if and only if nothing exactly one interval old exceeds it |
| `PeakRules.ReadsOpenWindowExample` | src/scheduler/Peak.ts:77-107 | two records for which it does not |
| `PeakRules.PeakIffLargest` | src/scheduler/Peak.ts:36-50 | a record reports a peak if and only if no sample of the open window exceeds it, although most were thrown away |
| `PeakRules.ForeverIsMax` | src/scheduler/Peak.ts:25-35 | without an interval the peak is the maximum of all samples |
| `PeakRules.RaisesThePeak` | src/scheduler/Peak.ts:23-75 | a record raises the peak, to its own value and time, and reports it if and only if, without an interval, it is above 0 and every sample before or, with one, no sample of the open window exceeds it |
| `PeakRules.ReadForgets` | src/scheduler/Peak.ts:77-107 | a read drops from the list exactly the samples from before the closed window |
| `Peak.FindLarger` | src/scheduler/Peak.ts:38-45 | the scan stops at the first sample in the window that is larger |
| `Peak.WindowMax` | src/scheduler/Peak.ts:79-92 | the maximum from the cutoff on, and how many samples are stale |
| `Peak.Peak.Record` | src/scheduler/Peak.ts:23-75 | appends to the history; returns whether either series has a new peak |
| `Peak.Peak.ToObject` | src/scheduler/Peak.ts:77-113 | both window maxima over the full history |
| `SchedulerRules.StepKeepsInv` | src/scheduler/fisk-scheduler.ts:1118-1181 | connecting, leaving, assignment, error and close keep all totals exact |
| `SchedulerRules.Conservation` | src/scheduler/fisk-scheduler.ts:1118-1181 | over every run `activeJobs` is the sum of `activeClients` over all builder objects and the number of open compiles; each builder's count is its own; none is negative; `capacity` and `builderCount` are those of the connected builders |
| `SchedulerRules.ErrorThenClose` | src/scheduler/fisk-scheduler.ts:1165-1181 | an error followed by a close counts a compile out once |
| `SchedulerRules.ConnectionsCount` | src/scheduler/fisk-scheduler.ts:288-345 | a connecting builder adds itself and its slots to the totals and the record, and a disconnecting one takes them away; jobs stay |
| `SchedulerRules.CompilesCount` | src/scheduler/fisk-scheduler.ts:1118-1181 | an assignment adds one job and one compile of its builder; the first error or close takes both away and any later one nothing |
| `SchedulerRules.OpenIsCard` | src/scheduler/fisk-scheduler.ts:1118-1181 | the job counter is the number of compiles that still count against a builder |
| `SchedulerRules.RecordExactIff` | src/scheduler/fisk-scheduler.ts:288-345 | a step keeps the builders record naming exactly the connected builders if and only if it is not a connect from an address and port still in use |
| `SchedulerRules.HiddenBuilderExample` | src/scheduler/fisk-scheduler.ts:288-345 | a connected and counted builder that is in no record |
| `Scheduler.Scheduler.InsertBuilder` | src/scheduler/fisk-scheduler.ts:288-292 | the method on the counters and the record |
| `Scheduler.Scheduler.RemoveBuilder` | src/scheduler/fisk-scheduler.ts:341-345 | the method on the counters and the record |
| `Scheduler.Scheduler.Assign` | src/scheduler/fisk-scheduler.ts:1118-1134 | counts a compile in |
| `Scheduler.Scheduler.LetGo` | src/scheduler/fisk-scheduler.ts:1165-1181 | counts it out at most once |
| `BuilderChoice.PickFrom` | src/scheduler/fisk-scheduler.ts:1064-1088 | the loop returns a builder that fits and has a usable environment, with no better score or, at the same score, older last job anywhere; none only if nobody is eligible |
| `BuilderChoice.Choose` | src/scheduler/fisk-scheduler.ts:1033-1088 | a holder of the cached object whenever one is eligible, else the best of all builders |
| `BuilderChoice.EligibleIff` | src/scheduler/fisk-scheduler.ts:1018-1046 | eligible is who is the builder insisted on by address or name, if any, has every label, and has an environment that can be used |
| `BuilderChoice.BestMeans` | src/scheduler/fisk-scheduler.ts:1007-1088 | the choice qualifies and no builder that does is worth more, by free slots up to four scaled by what the load leaves; at equal worth its last job is oldest, and then it comes first |
| `JobQueueRules.StepKeepsInv` | src/builder/fisk-builder.ts:784-1091 | arrival, end and close keep the queue sorted and the number of running jobs within bounds |
| `JobQueueRules.QueueInvariant` | src/builder/fisk-builder.ts:784-1091 | after every run: descending priority, arrival order within one; at least min(length, slots) run and at most slots plus the jobs that closed while waiting |
| `JobQueueRules.QueueIsExactly` | src/builder/fisk-builder.ts:784-1091 | after every run the queue holds exactly the jobs that have arrived and neither ended nor closed since, each once and with its own priority, by priority and then by arrival |
| `JobQueueRules.StepChanges` | src/builder/fisk-builder.ts:784-1091 | an arrival puts the job in, running if and only if everyone fits; an end or a close of a queued job takes it out and, if another waits, starts exactly one that nobody waiting is ahead of; nobody else changes |
| `JobQueueRules.OverfillsIff` | src/builder/fisk-builder.ts:1049-1061 | a step takes the running jobs above the slots if and only if a waiting job closes while they are full and another one waits |
| `JobQueueRules.OverfillsExample` | src/builder/fisk-builder.ts:1049-1061 | a run with one slot and two running jobs |
| `JobQueueRules.StartsTheFirst` | src/builder/fisk-builder.ts:784-794 | whenever a job starts, every job left waiting has lower priority or came later |
| `JobQueueRules.WaitIffPlacedBeyond` | src/builder/fisk-builder.ts:711-723 | an uncached job is told to wait if and only if the insertion loop would put it at an index beyond the slots |
| `JobQueueRules.BackloggedUntold` | src/builder/fisk-builder.ts:706-725 | a job told to wait is backlogged; a backlogged one is not told exactly when it goes in at index `slots` or before |
| `JobQueue.FindPlace` | src/builder/fisk-builder.ts:1075-1083 | the insertion loop finds the place behind the last job of at least the priority |
| `JobQueue.Builder.Headers` | src/builder/fisk-builder.ts:706-725 | cached, or placed beyond the slots |
| `JobQueue.Builder.StartPending` | src/builder/fisk-builder.ts:784-794 | marks exactly the first waiting job as running |
| `JobQueue.Builder.Arrive` | src/builder/fisk-builder.ts:1075-1091 | inserts, and starts at once exactly when the queue fits the slots |
| `JobQueue.Builder.Leave` | src/builder/fisk-builder.ts:896-1062 | takes the job out if it is still there, then starts the next |
| `PendingWrites.WriteKeepsInv` | src/builder/ObjectCachePendingItem.ts:44-52 | what was given is on the stream or, in order, in the buffer |
| `PendingWrites.DrainKeepsInv` | src/builder/ObjectCachePendingItem.ts:19-33 | the drain handler loses and reorders nothing, however often the stream refuses again |
| `PendingWrites.InCallOrder` | src/builder/ObjectCachePendingItem.ts:19-66 | under any pattern of refused writes and drains the stream holds a prefix of what was written in call order, all of it once ended, and the handler's missing-buffer error never happens |
| `PendingWrites.DrainProgress` | src/builder/ObjectCachePendingItem.ts:19-33 | every drain makes progress, and after `end` the one that empties the buffer ends the file |
| `PendingWrites.EndIsAnswered` | src/builder/ObjectCachePendingItem.ts:19-66 | an end ends the file at once unless something is buffered; then the drain that empties the buffer ends it and answers; otherwise the finish answers; a second end changes nothing |
| `PendingWrites.WrittenOrBuffered` | src/builder/ObjectCachePendingItem.ts:44-52 | a chunk goes to the stream when nothing is buffered and behind the buffer otherwise; a refusal starts the buffer |
| `PendingWrites.SizeCheck` | src/builder/ObjectCachePendingItem.ts:19-66 | when `end` is answered the file is sure to have its full size if and only if `end` found no buffer or the drain that ended the file sent no byte again, and sure not to if and only if that drain sent bytes behind its first chunk |
| `PendingWrites.ThrownAwayExample` | src/builder/ObjectCache.ts:211-242 | three chunks, the first refused: the file is complete in the end, and judged too short |
| `PendingItem.PendingItem.constructor` | src/builder/ObjectCachePendingItem.ts:11-42 | header size and JSON are given first, whatever the stream answers |
| `PendingItem.PendingItem.Write` | src/builder/ObjectCachePendingItem.ts:44-52 | one more chunk |
| `PendingItem.PendingItem.OnDrain` | src/builder/ObjectCachePendingItem.ts:19-33 | the handler with its forEach; once the buffer stays empty it ends the file and resolves at once |
| `PendingItem.PendingItem.End` | src/builder/ObjectCachePendingItem.ts:54-66 | ends the file now, to be resolved by the finish, or leaves both to the drain that empties the buffer |
| `PendingItem.PendingItem.OnFinish` | src/builder/ObjectCachePendingItem.ts:62-64 | resolves when everything given is on disk |
| `PendingItem.Work` | src/builder/fisk-builder.ts:132-200 | the chain of read callbacks sends what the sequential description says, and stops at a short read or a failed gunzip |
| `PendingItem.GetFromCache` | src/builder/fisk-builder.ts:128-200 | answers from a cached file with the reads from just behind its JSON |
| `DiskFormat.FileLength` | src/builder/ObjectCacheItem.ts:10-15 | the length of the file is `fileSize` |
| `DiskFormat.CachedRoundTrip` | src/builder/fisk-builder.ts:130-200 | the k-th read returns the k-th stored content |
| `DiskFormat.EveryClientGetsItsFiles` | src/builder/fisk-builder.ts:117-200 | with or without compressed replies, a client gets every original file in order, each message as long as the index it was sent announces |
| `DiskFormat.ServeOkIff` | src/builder/fisk-builder.ts:159-198 | on any file and for either kind of client, the reads succeed exactly when the file reaches as far as the index says and, for a client that wants its files unpacked, each content that is not empty can be |
| `DiskFormat.ReloadIff` | src/builder/ObjectCache.ts:111-131 | a completed file is accepted after a restart if and only if its JSON has 10 to 16384 bytes |
| `DiskFormat.AcceptedIsComplete` | src/builder/ObjectCache.ts:111-131 | an accepted file is complete: nothing was read past its end and answering from it will not come up short |
| `DiskFormat.LoadableIff` | src/builder/ObjectCache.ts:103-138 | the bytes on disk are accepted exactly when the cache's bookkeeping says they can be loaded, and both then mean the same lengths |
| `ArgsRules.NextPosition` | src/builder/VM_runtime/Compile.ts:33-141 | handling one option does to each position it covers what that position alone determines |
| `ArgsRules.RewriteIff` | src/builder/VM_runtime/Compile.ts:31-145 | the rewrite succeeds if and only if -o has its operand and the last source operand is the only non-empty one, and then every position has become what it should, in the original order |
| `ArgsRules.ExactlyOneSource` | src/builder/VM_runtime/Compile.ts:132-145 | without empty arguments: if and only if there is exactly one source operand and -o has its operand |
| `ArgsRules.EmptyArgumentIsASource` | src/builder/VM_runtime/Compile.ts:132-145 | an empty argument and a source together are accepted, and both become the source file's name |
| `ArgsRules.SurvivorsAreWanted` | src/builder/VM_runtime/Compile.ts:31-142 | every argument that remains comes from a position that stays |
| `ArgsRules.PathOptionVanishes` | src/builder/VM_runtime/Compile.ts:42-65 | wherever a path option stands, and whatever its operand looks like, the rewrite comes out as if neither had been there |
| `ArgsRules.DroppedWithOperand` | src/builder/VM_runtime/Compile.ts:33-67 | exactly the eight path options and dependency files are dropped with an operand; -o and -x are the only ones whose operand is edited; exactly what does not begin with a dash is a source |
| `ArgsRules.OperandKept` | src/builder/VM_runtime/Compile.ts:91-113 | exactly the twenty-one listed options keep an operand that is no source |
| `ArgsRules.DroppedAlone` | src/builder/VM_runtime/Compile.ts:47-130 | exactly the four dependency switches, and whatever begins like a joined path option and is not dropped with an operand, are dropped alone |
| `ArgsRules.LanguageIs` | src/builder/VM_runtime/Compile.ts:67-89 | a gcc is told of four languages that they are preprocessed; a clang, and any other language, is left alone |
| `ArgsRules.EditedExample` | src/builder/VM_runtime/Compile.ts:33-141 | -o, -x and the source of one argument list, whatever the output is called |
| `ArgsRules.DroppedExample` | src/builder/VM_runtime/Compile.ts:42-65 | a path option, its operand and a dependency switch leave nothing |
| `ArgsRules.KeptExample` | src/builder/VM_runtime/Compile.ts:91-113 | an option with its operand and a plain one stay |
| `ArgsRewrite.Compile.HandleOption` | src/builder/VM_runtime/Compile.ts:31-142 | one round of the loop, splicing and stepping back, is one option of the pass over the original list |
| `ArgsRewrite.Compile.Rewrite` | src/builder/VM_runtime/Compile.ts:31-145 | the in-place loop ends and equals the one-pass rewrite, or throws when that fails |
| `LineMarkers.StripIsKept` | src/client/Preprocessed.cpp:117-142 | the bytes hashed are exactly the positions outside every marker run, which reaches up to its newline |
| `LineMarkers.InMarkerIs` | src/client/Preprocessed.cpp:121-132 | a marker run starts with the bytes 35, 32 and one of 48 to 57 and goes on to the next 10 |
| `LineMarkers.MarkerDoesNotMatter` | src/client/Preprocessed.cpp:117-142 | two outputs that differ only in what one marker says feed the hash the same bytes |
| `LineMarkers.MarkersDoNotMatter` | src/client/Preprocessed.cpp:117-142 | two outputs with the same code, however many markers stand in it and whatever they say, feed the hash the same bytes |
| `LineMarkers.LineMarkersOnlyIff` | src/client/Preprocessed.cpp:117-142 | what is hashed is the text minus its line markers if and only if no marker occurs inside a line |
| `LineMarkers.ScansTheOutput` | src/client/Preprocessed.cpp:119-121 | the text scanned is the output if and only if that has no NUL and the byte behind it is one; otherwise it ends at the first NUL in the output, or goes on to the first one behind it |
| `LineMarkers.HashText` | src/client/Preprocessed.cpp:119-140 | the pointer scan feeds the hash exactly the text up to the first NUL without its marker runs |
| `Leb128.UnsignedRoundTrip` | src/client/DwarfPatcher.cpp:90-99 | every 64-bit value encoded as section 7.6 of DWARF 5 says is read back, with the pointer just behind it |
| `Leb128.SignedRoundTrip` | src/client/DwarfPatcher.cpp:101-114 | the same for signed values, the tenth byte and sign extension included |
| `Leb128.UnsignedExamples` | src/client/DwarfPatcher.cpp:90-99 | the encodings are those of the examples in section 7.6 of DWARF 5 |
| `Leb128.SignedExamples` | src/client/DwarfPatcher.cpp:101-114 | the same for signed values |
| `Leb128.ReadULEB128` | src/client/DwarfPatcher.cpp:90-99 | the do-while loop is that reader |
| `Leb128.ReadSLEB128` | src/client/DwarfPatcher.cpp:101-114 | the same for the signed one |
| `DwarfForms.PastValueOf` | src/client/DwarfPatcher.cpp:118-200 | for every form of section 7.5.6 the switch knows, the walk moves exactly past the value, or, for a block, exactly past its length, unless the cast to int makes that negative |
| `DwarfForms.PastSteady` | src/client/DwarfPatcher.cpp:118-200 | for forms of fixed size, block1 and block2 the step is the same whatever bytes are there |
| `DwarfForms.FixedSizes` | src/client/DwarfPatcher.cpp:118-200 | the step for each form code of fixed size, whatever bytes are there |
| `DwarfForms.OtherSizes` | src/client/DwarfPatcher.cpp:118-200 | for the integer and string forms the shortest value is passed, and no code outside the table is known |
| `DwarfWalk.HeaderAt` | src/client/DwarfPatcher.cpp:287-326 | a full unit header of section 7.5.1.1, 32 or 64 bit, version 2 to 5, is read back |
| `DwarfWalk.FindAbbrevOf` | src/client/DwarfPatcher.cpp:332-377 | the first abbreviation with the code is found, whatever forms the ones before it have |
| `DwarfWalk.WalkPlaces` | src/client/DwarfPatcher.cpp:343-365 | the two pointers keep step, so exactly the wanted attributes are recorded, where the steps over the values lead |
| `DwarfWalk.WalkFinds` | src/client/DwarfPatcher.cpp:343-365 | without payloads of blocks those are the places where their values start |
| `DwarfWalk.FindsWalk` | src/client/DwarfPatcher.cpp:281-378 | for every full header and abbreviation table an encoder writes, the search comes down to the walk over the first DIE's specifications from where its values start |
| `DwarfWalk.FindsAttributes` | src/client/DwarfPatcher.cpp:281-378 | and if the first DIE has no block with a payload: exactly the name and comp_dir attributes of form strp or line_strp are found, at the offsets where an encoder puts them |
| `DwarfWalk.ExpectedHoldValues` | src/client/DwarfPatcher.cpp:351-355 | the k-th place holds the value of the k-th such attribute, as wide as the format's offsets |
| `DwarfWalk.ExpectedApart` | src/client/DwarfPatcher.cpp:351-355 | the recorded values do not overlap |
| `DwarfWalk.FoundExactly` | src/client/DwarfPatcher.cpp:281-378 | in an encoder's unit without payloads of blocks an attribute is found at an offset if and only if a specification has name 0x03, or 0x1b for a directory, and form 0x0e or 0x1f, and its value starts there; they come in that order |
| `DwarfWalk.UnitExamples` | src/client/DwarfPatcher.cpp:281-378 | a version 4 and a version 5 unit byte by byte, with the places of their name and directory |
| `DwarfBlocks.FindsInFront` | src/client/DwarfPatcher.cpp:281-378 | if no block with a payload precedes a wanted attribute, whatever form it has and whatever follows: the search fails or finds exactly the places where the wanted values start |
| `DwarfBlocks.BlocksMisplace` | src/client/DwarfPatcher.cpp:176-196 | if only forms of fixed size, block1 and block2 follow the first payload: each wanted attribute is recorded short of its value by the payloads in front of it, so all are right if and only if no payload precedes a wanted attribute |
| `DwarfBlocks.InFrontIff` | src/client/DwarfPatcher.cpp:176-196 | no payload precedes a wanted attribute exactly when the payloads in front of each add up to nothing |
| `DwarfReader.WalkAttributes` | src/client/DwarfPatcher.cpp:343-365 | the attribute loop with both pointers moving |
| `DwarfReader.FindAbbreviation` | src/client/DwarfPatcher.cpp:332-377 | the search loop over the table |
| `DwarfReader.FindLocations` | src/client/DwarfPatcher.cpp:281-378 | the whole function, failures and out-of-range reads included |
| `StringTable.FindIsFirst` | src/client/DwarfPatcher.cpp:203-213 | the search gives the first offset that names the string, if any does |
| `StringTable.FindStringInSection` | src/client/DwarfPatcher.cpp:203-213 | the loop is that search |
| `StringTable.OldOffsetsKept` | src/client/DwarfPatcher.cpp:533-535 | whatever is appended to a terminated table, old offsets keep their strings |
| `StringTable.NewOffsetNames` | src/client/DwarfPatcher.cpp:533-537 | the first new offset names the appended string |
| `RelocPatch.PatchIsSound` | src/client/DwarfPatcher.cpp:497-550 | every old offset keeps its string; each moved entry named the old path or directory and names the new one; every other entry is untouched |
| `RelocPatch.RenamesExactly` | src/client/DwarfPatcher.cpp:497-550 | with addends in range, the first entry at a location is moved if and only if it named the old path or its non-empty directory |
| `RelocPatch.WrittenBackIff` | src/client/DwarfPatcher.cpp:497-553 | the object is written back if and only if an entry was moved: then the table has grown, and otherwise nothing has changed |
| `RelocPatch.DirIs` | src/client/DwarfPatcher.cpp:455-463 | the directory of a path is what is in front of its last slash, and empty without one |
| `RelocPatch.PatchRelocations` | src/client/DwarfPatcher.cpp:493-550 | the loop over the locations is that function |
| `RelocPatch.PatchLocation` | src/client/DwarfPatcher.cpp:497-550 | one location: the inner loop and what is done with the entry it stops at |
| `DirectPatch.OthersUntouched` | src/client/DwarfPatcher.cpp:601-624 | no byte outside the recorded offsets changes |
| `DirectPatch.RewrittenIff` | src/client/DwarfPatcher.cpp:585-620 | each attribute is rewritten if and only if the old path is in the table and the attribute held the one old offset, and then to the new one |
| `DirectPatch.RewriteMeans` | src/client/DwarfPatcher.cpp:585-620 | old and new offset name the old and new path, or directory, in the new table |
| `DirectPatch.RenamedIffFirst` | src/client/DwarfPatcher.cpp:585-611 | an attribute that names the old path is renamed if and only if it does so by the first offset that does |
| `DirectPatch.DirRenamedIffFirst` | src/client/DwarfPatcher.cpp:585-620 | an attribute that names the old directory is renamed if and only if the old path is in the table, both paths have a directory, these differ, and it does so by the first offset that does in the table with the new strings |
| `DirectPatch.DirKeptExample` | src/client/DwarfPatcher.cpp:585-589 | a directory that is named by the first offset and is not renamed, as the path itself is not in the table |
| `DirectPatch.SoundIff` | src/client/DwarfPatcher.cpp:353-354 | what is done to an attribute is right in the table its form is for if and only if the old path is not in .debug_str or the attribute is not a line_strp one that holds the one number that is then rewritten |
| `DirectPatch.LineStrpExample` | src/client/DwarfPatcher.cpp:604-620 | a line_strp attribute that names something else and holds that number |
| `DirectPatch.PatchLocation` | src/client/DwarfPatcher.cpp:604-620 | one round of the loop |
| `DirectPatch.PatchDirect` | src/client/DwarfPatcher.cpp:585-624 | the whole, with both sections unchanged when there are no attributes or the old path is not found |
| `DwarfPatch.UnitSoundIff` | src/client/DwarfPatcher.cpp:351-355 | patching an encoder's unit directly is right at every name and comp_dir of form strp or line_strp if and only if the old path is not in .debug_str or none of form line_strp holds the one number that is rewritten for it |
| `DwarfPatch.FoundAgain` | src/client/DwarfPatcher.cpp:601-624 | in an encoder's unit without payloads of blocks, direct patching leaves the same attributes at the same places for the search to find |
| `DwarfPatch.DirectReads` | src/client/DwarfPatcher.cpp:585-620 | an offset into the string table, of 4 bytes or 8, names the new string afterwards if the old path is in the table and it was the one looked for, and otherwise what it named |
| `DwarfPatch.NameBecomesNew` | src/client/DwarfPatcher.cpp:604-611 | so the name of an encoder's unit that was the old path, by its first offset, is found again and reads as the new path |
| `DwarfPatch.NameRenamed` | src/client/DwarfPatcher.cpp:585-611 | a specification with name 0x03 and form 0x0e or 0x1f whose value is the first offset that names the old path names the new path after patching what the search finds |
| `DwarfPatch.DirRenamed` | src/client/DwarfPatcher.cpp:585-620 | a specification with name 0x1b and such a form whose value is the first offset that names the old path's directory names the new path's, if the old path is in the table and both directories are there and differ |
| `DwarfPatch.RelocReads` | src/client/DwarfPatcher.cpp:493-550 | with relocations, the string the linker puts at each attribute found is the new one if it was the old path or directory, and otherwise what it was |
| `DwarfPatch.RelocRenamed` | src/client/DwarfPatcher.cpp:493-550 | with relocations: the first entry at a name or directory that points into the string table keeps everything but its addend, and names the new path or directory if and only if it named the old one |

## Left out

- Sockets, WebSocket upgrades, HTTP routes, child processes, chroot and file-system calls: they appear as completions in any
  order, chunks of any size and abstract files.
- gzip, JSON text, SHA-1, `path.basename` and ELF loading: parameters or abstract values; where a round trip through them
  matters, the theorem assumes that unpacking undoes packing and that parsing undoes printing.
- The monitor, logging, option and configuration parsing, deployment: user interface and plumbing.
- User accounts, cookies and nonces of the scheduler: wrappers around the crypto library.
- The client's option table in CompilerArgs.cpp, job ids, environment upload, purging and synchronisation.
- What a compile's constructor does after its loop: choosing a language by file extension, spawning the compiler, collecting
  its output files.
- Misuse of the daemon protocol: clients acquire only what they have not asked for and release only what they have; a failed
  assertion in a handler, which ends the daemon, is not modelled except in `acquireSlot`, where it is caught and logged.
- ManagerState.RunIsOk: assumes what the outside world provides: sha1s without a colon, distinct keys in a sync message, no
  two connected builders at one address, and timers that fire only while running.
- CacheSync.Agreement: one connection, from its opening on, which the scheduler knows as an object of its own; of the caches
  of earlier connections only the writes they have begun can still end. Two caches deleting each other's files, and a
  scheduler that turns object caching off between two connections, are not modelled.
- ClientBuffer.Buffer.Write: chunks are not empty, as Node's data events never are.
- ObjectCache.Cache.LoadFile: the unlinking of rejected and purged files, and file-system errors while unlinking.
- Wire.RoundTrip: what the payload's `type` makes the daemon emit; the emitted message is the payload.
- DatabaseRules.GetsLastSet: nobody else writes the file; values are JSON texts; keys are not names that every JavaScript
  object inherits; a parsed document is an object or falsy.
- PeakRules.ReadsWindowMax: values are reals, so rounding and NaN do not occur; times are whole milliseconds.
- SchedulerRules.Conservation: loads and scores are not part of the counters; compiles that are never assigned do not appear.
- BuilderChoice.PickFrom: scores are reals.
- JobQueueRules.QueueInvariant: the number of slots is constant. A job whose client has left but whose compiler still runs is
  no longer counted, as the queue does not hold it any more.
- DwarfWalk.FindsAttributes: indirect forms, and headers with extra fields (skeleton, split and type units), are not covered;
  the source does not handle them.
- DwarfBlocks.BlocksMisplace: where forms whose size depends on the bytes follow a payload in front of a wanted attribute,
  the search reads lengths from whatever is there, and nothing is said about what it finds.
- DwarfPatch.FoundAgain: the first DIE has no block with a payload, as otherwise a rewritten offset could be read as the
  length of something else.
- PendingWrites.SizeCheck: the stream has at most one call to the system under way, and everything it is given meanwhile goes
  with the next; a call that fails is an error of the stream.
- Leb128.UnsignedRoundTrip: or-ing shifted bits is written as addition, which is the same because the bits are disjoint.
- RelocPatch.PatchIsSound: the string table is terminated and the recorded offsets differ, as `DwarfWalk.ExpectedApart` says
  they do; symbols are reduced to the section they live in.
- DirectPatch.RewrittenIff: offsets are four bytes, so the table has at most 2^32 bytes; compressed sections are skipped by
  the source and not modelled.
