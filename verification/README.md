# Verified model of the HyperAMP backend proxy

The backend proxy lets a Linux zone serve network and IoT traffic for a seL4 zone. This project
models its core in Dafny and proves what the code does, for all inputs and for all runs.

* **Shared-memory queue.** A bounded ring in memory shared by two operating systems, guarded by a
  spinlock made of load-exclusive and store-exclusive instructions. It is modelled twice. First as
  a concurrent program (`ShmProtocol`): any number of zones, one step per access to shared memory,
  an exclusive monitor per processing element, a schedule that decides every interleaving and every
  hardware choice, and, between any two steps, writes to the data region by the other queue that
  shares it. `ShmRefinement` proves that each run is a run of an atomic bounded FIFO (`FifoSpec`) as
  long as those writes fall beside the messages, states exactly which writes do harm, and proves
  what holds regardless of them; `ShmCollision` exhibits a colliding run. `ShmTwoQueues` composes two
  such queues over one region, as the engine sets them up, and proves both FIFO. `ShmProgress` proves
  that operations take effect in lock order and that a holder lets go after a bounded number of its
  own steps. `ShmOperations` states what each caller is promised: the one effect of its call, told by
  the arguments it gave, and the code it gets back. Second as an object over a byte array (`ShmQueue`), with the control page byte by byte
  (`ShmLayout`).
* **Hash table.** `HashElem`, `HashBuckets`, `HashTable` and `HashSort` run uthash on heap objects
  with rewritten pointers: find, add, delete, bucket doubling and the in-place list merge sort,
  refining an insertion-ordered map. `MergeSortSpec` holds the mathematics of the sort.
* **INI files.** `Dictionary` is the slot table, `IniText` and `IniFile` the parser and printer on
  text (the `sscanf` scan sets are written out), `IniParser` the loops over a dictionary object,
  `IniRoundTrip` the theorem that loading a dump gives the dictionary back, and `IniExact` the exact
  condition for one printed entry. `IniAccept` says on the characters which texts are accepted and
  what each line means, and `IniFlat` what the dump of a dictionary without sections reads back as.
* **Wire format.** `Wire` builds nested proxy messages in a buffer, `WireReceive` dispatches a
  received block and states for each message type exactly what comes back. `WireLayout` ties the
  length tables to the fields of the structures that the messages carry.
  `EndToEnd` puts the two halves together: a message built by one zone, sent through the concurrent
  queue under any interleaving and beside the other queue's writes, and dispatched by another zone.
* **Pool queue.** `PoolQueue`: allocation at the header, building in the slot, rollback, zero-copy
  receive.
* **Scheduling.** `Tailq` (the linked queues at link level), `Sched` (link bits, active queues,
  drain loops, as a state machine), `SchedAnswers` (what processing and a pass do, told by the
  answers of the sockets alone), `SchedLoops` (the loops on the linked queues), `SchedRepair`
  (reads cut short), `SessionNodes` and `SessionTeardown` (the nodes of all devices) and `RoundRobin`
  (device choice).

Where the code and its comments disagree the model follows the code:

* `hyperamp_spinlock_trylock` is documented to return an error when the lock is taken; it returns
  `HYPERAMP_AGAIN` (src/hyperamp_shm_queue.c:229-249).
* The queue header calls the index that producers advance the tail in one place and the header in
  another; producers advance `header` (src/hyperamp_shm_queue.c:616-647).
* `IotMsgHeader` is documented as ten bytes and is twelve (include/message.h:625-637); the address
  lengths in the comment of `get_iot_addr_length` are not those of the structures
  (src/backend_proto.c:2624-2661).
* The IoT builder is documented to reject an address of another protocol; it only warns
  (src/backend_proto.c:1239-1243).
* `PROXY_MSG_LEN_VALID` and `APP_SESSION_ID_VALID` join their tests with "or" and accept everything
  (include/backend_proto.h:16-28); the model keeps them so.

Properties that the code does not have in general, with the exact condition under which it has them:

* A transmit enqueue over the shared data region keeps all published receive messages if and only
  if its slot is outside their window (`ShmQueue.SharedRegionIff`). For runs the slot that a sender
  is filling counts too: a write to the region corrupts nothing whatever it writes if and only if it
  is beside the bytes of pending messages and of the message being copied (`ShmRefinement.WriteIff`),
  and one that hits the slot being filled is delivered (`ShmCollision.CollidingRun`).
* A printed entry, whatever its key and value, is read back by the load loop, in whatever file it
  stands, if and only if `IniExact.EntrySurvivesIff` says so; that a line parses back is not enough,
  since a trailing backslash joins it to the next one, a newline in key or value cuts it, and a line
  that does not fit the buffer ends the reading. A malformed line makes the load fail
  (`IniAccept.LoadTextIff`), except as a last line of one character without a newline, which is
  overlooked.
* A strategy message is built with its own structure if and only if it is of the SET type, since the
  builder uses the device length table (`WireLayout.StrgyBuildsIff`), and is accepted only then
  (`WireReceive.StrgyDelivered`); a Modbus message always goes out with a wrong length
  (`WireReceive.ModbusLengthWrong`); the two IoT lengths agree exactly as in
  `WireReceive.IotLengthsAgreeIff`.
* A new session's link bits are masked with the bit instead of its complement, so they keep what
  the allocated memory held (src/session_pool.c:563-564, src/session_pool.c:797-798), and a socket
  read that is cut short after a segment does not link its session. Nothing is stranded in any state
  of a run if and only if no session is created with a set bit and no such read hits a session that
  is not linked (`Sched.StrandedIff`). With a set bit not one segment ever leaves, in either direction
  (`Sched.StrandedForever`); after a read cut short everything is in order again exactly with a
  complete read or the end of the session (`SchedRepair.RepairedIff`).
* What is not retried after a short `send`, or is refused with an error by the transmit queue, is
  lost; no byte is lost if and only if every segment removed was taken whole
  (`Sched.NoByteLostIff`).
* A failed build in a pool slot restores the ring if and only if the message type is supported; the
  exits for unsupported types do not roll back (`PoolQueue.Pool.BuildInSlot`).
* Creating an active session does not record its device (src/session_pool.c:445-606), and deleting
  it uses whatever number it holds. Every device keeps its nodes if and only if no session is closed
  whose number names another entry of the device table (`SessionNodes.KeepsNodesIff`), no node
  leaves its device or leaks if and only if every closed session recorded its own device
  (`SessionNodes.NoLeakIff`), and tear-down touches only live sessions if and only if every queued
  node is that of its live session (`SessionTeardown.DeviceTable.TearDown`). Closing the last session
  of a queue through another device leaves two wrong tail pointers
  (`SessionNodes.LastNodeLeavesStaleTails`): tear-down, which walks from the first element, does not
  notice (`SessionTeardown.StaleTailsTearDownCleanly`), the next insertion does
  (`SessionNodes.StaleTailIsUsed`).
* Round robin succeeds if and only if the first probed slot is active, because the probe narrows the
  mask in place (`RoundRobin.Chooser.Choose`, `RoundRobin.StuckAtInactive`).

## Model

| member | source | states |
|---|---|---|
| `ShmRefinement.RunRefines` | src/hyperamp_shm_queue.c:602-786 | every schedule of every number of zones, with any writes of the other queue beside the messages, produces a trace that the atomic, lock-serialised bounded FIFO accepts, and ends in a state that stands for the FIFO's |
| `ShmRefinement.RunIsFifo` | src/hyperamp_shm_queue.c:602-739 | over every such run the delivered blocks are, in order, a prefix of the sent messages, each starting with exactly the bytes sent when the reader asked for that many; the rest is still in the ring |
| `ShmRefinement.MutualExclusion` | src/hyperamp_shm_queue.c:139-204 | in every reachable state of runs of enqueue, dequeue, peek, slot allocation and release and trylock, whatever the other queue writes, at most one zone is between acquire and release, and the lock word is 1 exactly when one is |
| `ShmRefinement.StoreExclusiveIsExact` | src/hyperamp_shm_queue.c:229-249 | in every run the store-exclusive goes through only with the lock word 0 and nobody inside, and then its zone alone is inside; a failed one leaves the lock word, the ring, the counters and who is inside as they were |
| `ShmRefinement.WriteIff` | src/engine.c:2160-2162 | a write of the other queue corrupts neither a pending message nor one being copied, whatever byte it writes, if and only if it is beside their bytes |
| `ShmRefinement.WriteRefines` | src/engine.c:2160-2162 | a write beside all message bytes is no event of the queue and keeps the simulation relation |
| `ShmRefinement.OtherSlotIsBeside` | src/hyperamp_shm_queue.c:640-643 | a slot that is not pending, and not at the header while a message is being copied there, holds no message byte, so the other queue may fill it |
| `ShmRefinement.RunAlike` | src/hyperamp_shm_queue.c:602-786 | any run differs from the run without the other queue's writes only in bytes of the region and copies of them |
| `ShmRefinement.IndicesAlways` | src/hyperamp_shm_queue.c:804-870 | in every run, with slot allocations and releases among its operations and whatever the other queue writes, indices stay below the capacity, the length is their modular difference and, with the lock free, that of the wrapping counters |
| `ShmOperations.CallsKeepPromises` | src/hyperamp_shm_queue.c:602-870 | in every run, whatever the other queue writes, a call with bad arguments returns ERROR at once and does nothing; every other call that returns took the lock, had exactly one effect (an enqueue of d sends d, a dequeue or peek of n delivers or shows min(n, block size) bytes, or the queue is found full or empty) and released the lock with the code it returns: AGAIN for enqueue on full and dequeue on empty, ERROR for the others there, OK otherwise; a lock that is tried and not obtained gives AGAIN and does nothing |
| `ShmOperations.EffectIsAsked` | src/hyperamp_shm_queue.c:602-870 | whatever is sent, delivered, peeked, found full or found empty in a run is what the operation promises that its zone was called with, and the first thing the zone does after taking the lock |
| `ShmOperations.EffectOfCall` | src/hyperamp_shm_queue.c:602-870 | an effect of a zone between a call and its return is the effect of that call and goes with the code returned |
| `ShmOperations.CodesTellTheQueue` | src/hyperamp_shm_queue.c:602-870 | the code returned is the one for the number of messages waiting at the moment of the effect: full means capacity minus one, empty means none |
| `ShmOperations.LockIsRecorded` | src/hyperamp_shm_queue.c:139-204 | in every run the owner field names the zone inside from when it has entered itself until it clears the field, and the lock count has grown by the number of acquisitions modulo 2^32, but for one not yet counted |
| `ShmCollision.CollidingRun` | src/backend_proto.c:1559-1559 | a run in which the other queue writes the slot being filled and a byte that was never sent is delivered |
| `ShmTwoQueues.BothFifo` | src/engine.c:2160-2162 | two queues of one configuration over one region, each with its own lock, indices and counters, and the zones of both interleaved at will: both are FIFO as long as no zone copies into a slot that is pending or being filled in the other queue |
| `ShmTwoQueues.BothHarmless` | src/engine.c:2160-2162 | under that condition each queue sees only writes of the other that fall beside its messages |
| `ShmTwoQueues.Projects` | src/engine.c:2160-2162 | each queue of a joint run goes through a run of its own, in which the bytes the other one copies are writes to the region |
| `ShmRefinement.IndicesAndCounters` | src/hyperamp_shm_queue.c:616-647 | in every reachable state the indices are below the capacity, the length is the modular difference of the indices and of the wrapping 32-bit counters, up to the one update the holder has not counted yet |
| `ShmRefinement.StepRefines` | src/hyperamp_shm_queue.c:602-786 | one memory access of one zone is one enabled event of the atomic queue and keeps the simulation relation |
| `ShmRefinement.InitRefines` | src/hyperamp_shm_queue.c:429-552 | a freshly created queue stands for the empty FIFO |
| `ShmRefinement.EnqCopyStep` | src/hyperamp_shm_queue.c:640-643 | copying one byte into the header slot disturbs no pending message and never leaves the region |
| `ShmRefinement.EnqPublishStep` | src/hyperamp_shm_queue.c:645-647 | advancing the header publishes exactly the copied message at the end of the queue |
| `ShmRefinement.DeqCopyStep` | src/hyperamp_shm_queue.c:708-723 | copying one byte out of the tail slot reads the front message and never leaves the region |
| `ShmRefinement.DeqPublishStep` | src/hyperamp_shm_queue.c:725-731 | advancing the tail removes exactly the front message |
| `ShmRefinement.OtherZone` | src/hyperamp_shm_queue.c:139-204 | a step of one zone keeps the state of every other zone consistent |
| `ShmRefinement.CountStep` | src/hyperamp_shm_queue.c:647-650 | the counters follow the indices modulo 2^32 |
| `ShmProgress.RunIsSerialised` | src/hyperamp_shm_queue.c:602-786 | in every run beside the other queue's writes, nothing happens between a zone's acquisition and its operation's effect, and the next event after the effect is that zone's release with the code of the effect |
| `ShmProgress.HolderLetsGo` | src/hyperamp_shm_queue.c:602-786 | whatever the interleaving and whatever the other queue writes, a zone inside the critical section makes fewer moves than its remaining steps before it leaves, at most the copied length plus 13 |
| `EndToEnd.MessageCrosses` | src/backend_proto.c:1557-1569 | under any interleaving, provided the other queue over the region writes beside the messages, the k-th successful dequeue gives its caller a block that starts with the proxy message which the k-th successful enqueue was called with |
| `EndToEnd.DataCrosses` | src/engine.c:3311-3349 | under the same condition a data message built by one zone reaches the dispatcher of the dequeuing zone with identifiers and payload intact |
| `EndToEnd.CreateCrosses` | src/engine.c:3311-3349 | under the same condition an active create command, for every valid set of parameters of both IP versions, reaches the dispatcher with its session parameters unchanged |
| `FifoSpec.AcceptedIsFifo` | src/hyperamp_shm_queue.c:602-739 | any trace of the atomic queue delivers in order, without loss or duplication |
| `FifoSpec.MatchedRead` | src/hyperamp_shm_queue.c:602-739 | in an accepted trace the block delivered after as many others as a message was sent after is a reading of that message |
| `FifoSpec.AcceptedIsBounded` | include/hyperamp_shm_queue.h:83-110 | the atomic queue never holds more than capacity minus one messages |
| `FifoSpec.EffectsFollowAcquisition` | src/hyperamp_shm_queue.c:139-204 | in an accepted trace every effect follows its zone's acquisition immediately |
| `FifoSpec.ReleaseFollowsEffect` | src/hyperamp_shm_queue.c:194-204 | in an accepted trace the next event after an effect is the release by the same zone, with the code of the effect |
| `Ring.LengthIsModular` | src/hyperamp_shm_queue.c:616-622 | compare-and-subtract and the length macro are the modular forms, the 16-bit increment does not overflow, and full means length capacity minus one |
| `Ring.NextByCompare` | src/hyperamp_shm_queue.c:616-622 | the 16-bit increment with compare and subtract is the next index of the ring |
| `Ring.NextByRemainder` | src/hyperamp_shm_queue.c:813-820 | the remainder form used by the slot functions gives the same index |
| `Ring.CountersMeasure` | src/hyperamp_shm_queue.c:647-650 | wrapping 32-bit counters keep measuring the length across an increment of either |
| `ShmQueue.Queue.constructor` | src/hyperamp_shm_queue.c:429-552 | a created queue is empty, unlocked and consistent |
| `ShmQueue.Queue.Enqueue` | src/hyperamp_shm_queue.c:602-668 | the three return codes, and on success the block is appended to the pending sequence, only its bytes of the region change, and indices and counters stay consistent |
| `ShmQueue.Queue.Push` | src/hyperamp_shm_queue.c:616-655 | the critical section of enqueue, with the same effect on the pending sequence |
| `ShmQueue.Queue.Dequeue` | src/hyperamp_shm_queue.c:680-739 | the return codes, and on success the output is the front block cut to the length asked for and the pending sequence loses its front |
| `ShmQueue.Queue.Pop` | src/hyperamp_shm_queue.c:696-733 | the critical section of dequeue, with the same effect |
| `ShmQueue.Queue.Peek` | src/hyperamp_shm_queue.c:757-786 | reads the front block without changing indices or counters; empty is an error here |
| `ShmQueue.Queue.AllocSlot` | src/hyperamp_shm_queue.c:804-834 | hands out the slot at the header inside the region and publishes it; the length grows by one |
| `ShmQueue.Queue.ReleaseSlot` | src/hyperamp_shm_queue.c:846-870 | drops the oldest index and keeps the others in place |
| `ShmQueue.CopyIn` | src/hyperamp_shm_queue.c:317-330 | the byte loop writes exactly the data at the base and nothing else |
| `ShmQueue.CopyOut` | src/hyperamp_shm_queue.c:317-330 | the byte loop returns exactly the bytes at the base |
| `ShmQueue.PendingAfterEnqueue` | src/hyperamp_shm_queue.c:640-647 | filling the header slot and advancing appends one block and leaves the others unchanged |
| `ShmQueue.PendingAfterDequeue` | src/hyperamp_shm_queue.c:708-731 | advancing the tail removes exactly the first pending block |
| `ShmQueue.SharedRegionIff` | src/engine.c:2160-2162 | with both queues over one base, filling a transmit slot keeps all pending receive blocks for every payload if and only if the slot is outside the receive window |
| `ShmLayout.WriteLE` | src/hyperamp_shm_queue.c:474-487 | a byte-wise store turns the page into the one with the little-endian form at the offset and every other byte as it was |
| `ShmLayout.SafeRead` | src/hyperamp_shm_queue.c:343-407 | a byte-wise read returns the little-endian value at the offset |
| `ShmLayout.RoundTripLE` | src/hyperamp_shm_queue.c:343-407 | reading what was written gives the value modulo the field width |
| `ShmLayout.LayoutFitsPage` | include/hyperamp_shm_queue.h:83-110 | every named offset is the end of the field before it and the sum of the widths so far, in front of and behind the two mapping tables, whose 125 entries each lie between them; the lock is 4-byte aligned and the structure ends within the 4096-byte control page |
| `ShmLayout.InitQueue` | src/hyperamp_shm_queue.c:429-552 | a bad configuration changes nothing; otherwise every field reads back as configured and the rest of the page is untouched |
| `ShmLayout.FieldOfImage` | include/hyperamp_shm_queue.h:83-110 | consecutive fields occupy disjoint ranges, and each reads back as its own value |
| `ShmLayout.ChannelFits` | src/hyperamp_shm_queue.c:1003-1013 | for every data-region size the computed capacity, truncating cast included, keeps every slot inside the region, is usable exactly when the truncated quotient is at least two, and is 256 or the largest that the quotient allows |
| `MergeSortSpec.MergeSortIsStable` | include/uthash.h:890-972 | bottom-up merging from runs of one gives the sorted stable permutation for every total preorder |
| `MergeSortSpec.PassDoublesRuns` | include/uthash.h:904-959 | one pass turns sorted runs of length k into sorted runs of length 2k |
| `MergeSortSpec.MergeStable` | include/uthash.h:917-945 | merging sorted runs keeps ties in order, the left run first |
| `HashSort.SortList` | include/uthash.h:890-972 | the in-place sort leaves the list linked both ways in the order of the merge sort, with the right head and tail |
| `HashSort.MergePass` | include/uthash.h:899-962 | one pass of the in-place sort leaves the linked list that the pass on sequences computes |
| `HashSort.MergeRuns` | include/uthash.h:916-957 | the inner loop appends the merge of the two runs to the output list |
| `HashSort.StepOver` | include/uthash.h:905-915 | steps over at most k elements and counts them |
| `HashTable.Table.Find` | include/uthash.h:153-172 | returns the element that the table's map binds to the key, or NULL when there is none |
| `HashTable.Table.Add` | include/uthash.h:396-422 | the element becomes last in application order and is bound to its key; every chain, link and count stays right, across a bucket doubling too |
| `HashTable.Table.Delete` | include/uthash.h:450-477 | the element leaves its place in application order and its key leaves the map; the rest keeps its order and stays valid |
| `HashTable.Table.Sort` | include/uthash.h:890-972 | application order becomes the sorted stable permutation for every total preorder; the map and the buckets are unchanged |
| `HashTable.Table.ItemsAreCounted` | include/uthash.h:516-563 | num_items is the number of elements and the sum of the bucket counts |
| `HashTable.Expand` | include/uthash.h:833-883 | doubling keeps the elements, sets the ideal length to the ceiling of items over buckets, counts the excess over it, brackets every crowded bucket's multiplier, and inhibits expansion after two ineffective ones |
| `HashTable.AddToTable` | include/uthash.h:337-348 | the element joins the bucket its hash selects and the count of items grows by one; the buckets double exactly when that bucket has reached ten times its multiplier plus one and expansion is not inhibited |
| `HashTable.MakeTable` | include/uthash.h:212-241 | a new table has 32 empty buckets |
| `HashTable.IdealLength` | include/uthash.h:846-848 | shift and mask compute the ceiling of items over buckets |
| `HashBuckets.Redistribute` | include/uthash.h:850-870 | every element of every old chain ends in the bucket its hash selects among the new ones, with counts, excess and multipliers right |
| `HashBuckets.GrowKeepsMult` | include/uthash.h:856-861 | one more element keeps the bracket (mult - 1) * ideal < count <= mult * ideal + 1 |
| `HashBuckets.CountsAddUp` | include/uthash.h:516-540 | the bucket counts add up to the number of elements |
| `HashBuckets.Insert` | include/uthash.h:767-776 | pushing in front of a chain keeps all chains linked, counted and placed |
| `HashBuckets.Remove` | include/uthash.h:789-802 | taking an element out of its chain keeps all chains linked, counted and placed |
| `HashElem.PushFront` | include/uthash.h:767-776 | hh_next and hh_prev stay mutually inverse with the element in front |
| `HashElem.UnlinkBucket` | include/uthash.h:789-802 | hh_next and hh_prev stay mutually inverse without the element |
| `HashElem.AppendList` | include/uthash.h:278-284 | next and prev stay mutually inverse with the element at the end |
| `HashElem.UnlinkList` | include/uthash.h:460-470 | next and prev stay mutually inverse without the element, with the right new head and tail |
| `Bits.MaskIsSlot` | include/uthash.h:430-433 | masking a hash with a power of two minus one selects its remainder |
| `Bits.CeilByShift` | include/uthash.h:846-848 | shift plus mask test is the ceiling of the quotient |
| `Dictionary.Dict.constructor` | src/dictionary.c:178-194 | a new dictionary has the slots asked for, and at least 128, all free, and stands for the empty map |
| `Dictionary.Dict.Get` | src/dictionary.c:237-257 | returns what the map binds to the key, or the default |
| `Dictionary.Dict.Set` | src/dictionary.c:283-329 | binds the key to the value and changes no other binding, growing when full; a NULL key is refused |
| `Dictionary.Dict.Unset` | src/dictionary.c:342-377 | removes the binding of the key and no other |
| `Dictionary.Dict.Grow` | src/dictionary.c:96-129 | doubles the slots and keeps the map, the count, the hashes and the distinctness of keys |
| `Dictionary.Dict.Scan` | src/dictionary.c:292-308 | finds the slot of the key, or proves that it is not bound |
| `Dictionary.Dict.FindFree` | src/dictionary.c:317-322 | the wrap-around search ends, at the first free slot from the number of entries on |
| `IniText.StrStrip` | src/iniparser.c:118-136 | in place, the buffer holds the text without blanks at either end, NUL-terminated |
| `IniText.StrLwc` | src/iniparser.c:72-84 | the first len - 1 characters in lower case, NUL-terminated |
| `IniParser.Load` | src/iniparser.c:741-847 | gives a dictionary if and only if every line fits the buffer and no logical line is malformed, and then one that stands for what the text says; NULL otherwise |
| `IniAccept.LoadTextIff` | src/iniparser.c:741-847 | a text loads if and only if every line, joined to what continued lines left, is at least two characters shorter than the buffer, and no logical line is without an equals sign behind a first character while being neither blank nor comment nor bracketed; it is given up exactly for a line that does not fit |
| `IniAccept.LoadsIff` | src/iniparser.c:776-847 | from any point of the reading loop on: too long, syntax errors, or the dictionary that the logical lines build one after another |
| `IniAccept.ErrorIff` | src/iniparser.c:660-728 | a line is a syntax error exactly when its characters make it malformed |
| `IniAccept.HeaderIs` | src/iniparser.c:680-685 | a bracketed line names the section up to the first closing bracket, stripped and in lower case |
| `IniAccept.AssignmentIs` | src/iniparser.c:686-719 | for every key, the line parses to the key stripped and in lower case, and to a value that depends on the text after the equals sign alone |
| `IniAccept.QuotedText` | src/iniparser.c:686-693 | a quoted value is exactly what is between the quotes, comment characters and blanks included, closing quote or not |
| `IniAccept.PlainText` | src/iniparser.c:694-719 | any other value ends before a comment and loses its blank edges, and an empty pair of quotes is the empty value |
| `IniAccept.LoadedLower` | src/iniparser.c:680-719 | whatever the text, every section name and every key of the loaded dictionary is in lower case |
| `IniAccept.LettersAre` | src/iniparser.c:72-84 | lower case shifts the 26 capitals to the small letters and leaves every other character alone |
| `IniAccept.BlanksAre` | src/iniparser.c:118-135 | the blanks are the six of the C locale |
| `IniAccept.PaddedIs` | src/iniparser.c:337-341 | a printed key is the key, filled up with spaces to 30 columns |
| `IniParser.ReadTurn` | src/iniparser.c:776-840 | one turn of the loop keeps the meaning of the text: what is left to read, from the new dictionary, section and error count, means what the text meant before, or the file is given up |
| `IniParser.TrimRight` | src/iniparser.c:791-796 | the trimming loop removes exactly the blanks at the end |
| `IniParser.StoreLine` | src/iniparser.c:808-833 | what the status of a line does to the dictionary, the current section and the error count |
| `IniParser.Dump` | src/iniparser.c:285-309 | prints every section found with its keys, or all keys when there is no section |
| `IniParser.WriteSection` | src/iniparser.c:323-347 | prints the header and the keys under the section, nothing when it is not found |
| `IniParser.SectionCount` | src/iniparser.c:191-207 | the number of keys without a colon |
| `IniParser.SectionName` | src/iniparser.c:222-243 | the n-th key without a colon in slot order, or NULL |
| `IniParser.DumpByNames` | src/iniparser.c:303-306 | dumping by section number prints the sections in slot order |
| `IniRoundTrip.DumpThenLoad` | src/iniparser.c:285-347 | loading a dump gives back exactly the map, for every well-formed dictionary in every arrangement of its slots |
| `IniFlat.FlatDumpThenLoad` | src/iniparser.c:294-300 | loading the dump of a dictionary without sections gives, for every arrangement of its slots, exactly its keys under the empty section with the values as printed |
| `IniFlat.KeyLine` | src/iniparser.c:337-341 | the line for a key of a section: the padded name and the value, nothing for NULL |
| `IniFlat.FoundIff` | src/iniparser.c:330-330 | a section is dumped when its name in lower case is a key |
| `IniExact.EntrySurvivesIff` | src/iniparser.c:741-847 | for every key and value, a printed entry is read back, whatever follows it and whatever was read before, if and only if its key is lower case and has no newline, equals sign, blank edge or leading comment character, its line fits the buffer, and its value has no newline, blank edge, comment character or final backslash, does not look quoted or empty, and does not make the line look like a section header |
| `IniExact.LoadedOneLine` | src/iniparser.c:776-833 | whatever the text, no value of the loaded dictionary holds a newline |
| `IniExact.LoadedKeysOneLine` | src/iniparser.c:776-833 | nor does a key |
| `IniRoundTrip.ValueSurvivesIff` | src/iniparser.c:660-728 | for every key and value, one printed line parses back to them if and only if the key has the shape of a key, the value has no blank edges, no comment character, does not look quoted or empty, and the line does not look like a section header |
| `IniRoundTrip.ParsedKey` | src/iniparser.c:684-719 | whatever the line, the key it parses to is lower case and has no equals sign, blank edge or leading comment character |
| `IniRoundTrip.ParseStripped` | src/iniparser.c:684-719 | for a well-formed key the line parses to that key and to exactly what the three value forms leave of the text |
| `IniRoundTrip.ParseSection` | src/iniparser.c:680-685 | a printed section header parses back to its name |
| `IniRoundTrip.LoadEntry` | src/iniparser.c:337-341 | reading a printed key stores it under the current section |
| `Wire.Build` | src/backend_proto.c:1365-1571 | fails exactly when the length checks fail (`WireLayout` says which lengths those are), runs over exactly when the message is longer than the buffer, and otherwise leaves the message in the buffer, whose outer length is that of the body in 16 bits |
| `Wire.PutPlain` | src/backend_proto.c:888-1062 | the device, strategy, session and data builders: their length checks, when they run over the buffer, and header and payload behind the outer header |
| `Wire.PutIot` | src/backend_proto.c:1218-1325 | the IoT builder: unsupported protocols fail, otherwise header, address cut to the given length, and payload, unless they run over the buffer |
| `Wire.WrittenIsMessage` | src/backend_proto.c:1299-1322 | what a build writes without a cleared buffer is the message, up to the bytes that a cut address leaves open |
| `WireLayout.DevBuildsIff` | include/message.h:239-261 | a device message is built if and only if its payload is as long as the fields of the structure of its type and action, and the header says so |
| `WireLayout.SessBuildsIff` | include/message.h:453-482 | a session message likewise: nothing for a close command, status and code for a response, the parameter structure of its IP version for a create command |
| `WireLayout.StrgyBuildsIff` | include/message.h:332-333 | a strategy message with its own structure is built if and only if it is of the SET type, because the device table is used |
| `WireLayout.CreateArrives` | src/backend_proto.c:498-594 | every active create command, for all valid parameters laid out field by field, is built, and its receiver gets the parameters unchanged |
| `WireLayout.ParaLayout` | include/message.h:390-410 | the parameter block is device, transport protocol, address and port, in this order |
| `WireLayout.DevTakenIff` | src/backend_proto.c:127-206 | any block of device type, built here or not, is taken if and only if it is a version-1 command between admin sessions as long as the structure of its type |
| `WireLayout.StrgyTakenIff` | src/backend_proto.c:235-313 | any block of strategy type likewise, with the strategy structures |
| `WireLayout.SessTakenOnly` | src/backend_proto.c:354-475 | a session block that is not rejected is of version 1 and as long as the structure of its type |
| `WireLayout.IotTakenIff` | src/backend_proto.c:2175-2245 | what the dispatcher does with any block of IoT type, built here or not: rejected when the outer length does not cover header and address, the session is down or the inner length is out of bounds, otherwise taken, or sent out from the address on |
| `WireLayout.UnknownProtocol` | src/backend_proto.c:2175-2245 | a block of IoT type without a known protocol is rejected |
| `WireLayout.UnknownRejected` | src/backend_proto.c:22-110 | a block of no known type is rejected |
| `WireLayout.WordsAreLE` | src/backend_proto.c:22-26 | header words are little-endian |
| `WireLayout.AddrSizeIs` | include/message.h:640-702 | the address length of each IoT protocol is the sum of the fields of its address structure, and 0 for every other protocol |
| `WireReceive.OuterRecovered` | src/backend_proto.c:22-26 | every field of the outer header is read back, the length being that of the body in 16 bits |
| `WireReceive.InnerRecovered` | src/backend_proto.c:144-149 | every word of the inner header is read back |
| `WireReceive.PayloadRecovered` | src/backend_proto.c:915-918 | the payload is found whole behind the headers |
| `WireReceive.DevDelivered` | src/backend_proto.c:127-206 | a built device message is delivered with type, identifier and payload exactly when it is a version-1 command between admin sessions |
| `WireReceive.StrgyDelivered` | src/backend_proto.c:235-313 | a built strategy message is delivered exactly when it is moreover of the SET type |
| `WireReceive.SessDelivered` | src/backend_proto.c:354-475 | what becomes of every built session message: close, confirm, create or reject |
| `WireReceive.ParametersDelivered` | src/backend_proto.c:498-594 | an active create command carries its session parameters across unchanged, for both IP versions |
| `WireReceive.DataDelivered` | src/backend_proto.c:86-97 | a data message arrives with its identifiers, and whole exactly when its length fits 16 bits |
| `WireReceive.IotRecovered` | src/backend_proto.c:2175-2245 | protocol, lengths, address and payload of a built IoT message are where the receiver looks |
| `WireReceive.IotLengthsAgreeIff` | src/common_utils.c:1248-1262 | the outer length is twelve plus the inner length if and only if the address is sent whole and the sum fits 16 bits |
| `WireReceive.IotForwardedIff` | src/backend_proto.c:2269-2445 | Bluetooth and CAN send out exactly the original address and payload if and only if the session is up, the address is whole and the handler's limit holds |
| `WireReceive.ModbusLengthWrong` | src/backend_proto.c:2574-2621 | the length a Modbus message goes out with is never that of its payload, and eleven too many when the address is whole; it goes out if and only if the session is up and 253 bytes are enough for both |
| `WireLayout.IotFate` | src/backend_proto.c:2269-2621 | what becomes of a built IoT message with a whole address, protocol by protocol: Bluetooth, CAN and Modbus send out exactly the address and, from the right place, the payload if and only if the session is up and the limit of 244, 64 or 253 bytes holds, Modbus with the address counted in the length; ZigBee, LoRa and PowerLink take it and send nothing |
| `WireLayout.IotCut` | src/backend_proto.c:1218-1325 | with a shorter address exactly the bytes given are sent, the payload right behind them |
| `PoolQueue.PoolRunIsFifo` | src/shared_mem_io.c:303-332 | every run of sends, failed sends and receives is FIFO, bounded, and the block handed out last is not overwritten before the next receive |
| `PoolQueue.Pool.constructor` | src/shared_mem_io.c:126-137 | the allocation has room for one block more than the capacity |
| `PoolQueue.Pool.AllocFromHeader` | include/shared_mem_io.h:420-440 | hands out the slot at the header inside the allocation unless the ring is full |
| `PoolQueue.Pool.HeadRollback` | include/shared_mem_io.h:465-473 | the newest waiting block is dropped, if there is one |
| `PoolQueue.Pool.BuildInSlot` | src/backend_proto.c:1394-1513 | in shared mode a message that passes the checks is appended to the ring; a build that fails leaves ring and header as they were if and only if the message type is supported |
| `PoolQueue.Pool.RecvZc` | src/shared_mem_io.c:303-332 | hands out the address of the oldest block and removes it, or reports an empty queue |
| `PoolQueue.RollbackUndoes` | include/shared_mem_io.h:465-473 | rollback right after a successful allocation restores the header, across the wrap too |
| `PoolQueue.StrayRollbackDrops` | include/shared_mem_io.h:465-473 | rolling back without an allocation before it drops the newest waiting block |
| `PoolQueue.AbortKeeps` | src/backend_proto.c:1508-1513 | a failed build changes nothing but bytes of the free slot |
| `Tailq.InsertTailAppends` | include/session.h:152-163 | TAILQ_INSERT_TAIL appends to the sequence that the links spell |
| `Tailq.RemoveDrops` | include/session.h:179-190 | TAILQ_REMOVE drops exactly that element from the sequence |
| `Tailq.RemoveTwice` | src/engine.c:3390-3396 | removing an element again right after its removal changes nothing |
| `Tailq.RemoveViaIff` | include/dev.h:232-252 | removing an element through the head of another queue takes it out of the elements reached from the first one, and leaves its own queue right, tail pointer included, if and only if it was not the last |
| `Tailq.RemoveWalks` | include/dev.h:232-252 | with a wrong tail pointer too, a removal takes exactly that element out of those reached from the first one, and removing the last one puts the tail pointer right |
| `Sched.NothingStranded` | src/engine.c:3363-3470 | in every run without an operation that strands: link bit equals membership, nobody is queued twice, whoever has segments is queued, and segments leave in the order they came |
| `Sched.StrandedIff` | src/session_pool.c:1242-1284 | in every state of a run all this holds if and only if no operation created a session with a set bit or was a read, cut short after a segment, of a session not linked |
| `Sched.StepOkIff` | src/engine.c:3363-3470 | one operation on an engine in order leaves it in order if and only if it is not one of these two |
| `Sched.StrandedForever` | src/session_pool.c:563-564 | in either direction a session whose memory held a set bit keeps every segment ever brought to it, as long as it lives, and not one byte goes out, in every run; up to the point where another session with such a bit is removed, whose removal writes through links that were never set, this is what the code does |
| `Sched.StrandedUntilClosed` | src/session_pool.c:797-798 | front to back it lives, and keeps everything, until it is closed |
| `Sched.CreateStuckIff` | src/session_pool.c:563-564 | a new session is stuck in a direction exactly when its memory held a set bit there |
| `Sched.FreshKeepsIff` | src/session_pool.c:797-798 | a new session meets the invariant if and only if its memory held a clear bit |
| `Sched.ArriveKeepsIff` | src/session_pool.c:1242-1284 | after an arrival the invariant holds if and only if the session was linked, the read was complete, or nothing arrived |
| `SchedRepair.RepairedIff` | src/session_pool.c:1242-1284 | after a read cut short, a run that strands no other session ends in order if and only if it held a complete read of that session or the session's end, further reads of it cut short included |
| `SchedRepair.CutShortArises` | src/session_pool.c:1242-1284 | a read cut short after a segment, of a session that is not linked, leaves an engine in order with exactly that session cut short |
| `Sched.Process` | src/session_pool.c:1046-1107 | reports done only with the queue drained and again only with segments left, fails only front to back, at once when the buffer size is not told, and segments only move from the waiting to the handled end |
| `SchedAnswers.FrontToBack` | src/session_pool.c:1046-1107 | front to back exactly the segments before the first one with data that meets a full socket or an error leave, the rest stays, and the status is again, failed, or done when there is none; the socket gets the first bytes of each segment, as many as it took, in order |
| `SchedAnswers.Unsized` | src/session_pool.c:1056-1060 | without the size of the send buffer nothing leaves and the session fails |
| `SchedAnswers.BackToFront` | src/session_pool.c:1140-1187 | back to front exactly the segments before the first one that meets a full transmit queue leave, one that meets an error among them |
| `SchedAnswers.StopsSomewhere` | src/session_pool.c:1046-1107 | one of these cases always applies: there is a first such segment, or the end |
| `Sched.NoByteLostIff` | src/session_pool.c:1067-1087 | no byte of the removed segments is lost if and only if every one with data was taken whole |
| `Sched.TurnKeeps` | src/engine.c:3374-3396 | one loop body keeps the invariant of both directions and the queueing of all other sessions |
| `Sched.DrainEmpties` | src/engine.c:3363-3400 | when everything is taken one pass empties the active queue and every message queue |
| `SchedAnswers.PassIs` | src/engine.c:3363-3470 | in one pass every queued session, back to front up to the first that finds the transmit queue full, has its turn with the outcome its own answers call for: deleted, drained and off the queue, or still queued; nothing changes about any other session in either direction |
| `SchedAnswers.EverySessionHasItsTurn` | src/engine.c:3363-3400 | front to back every queued session has its turn, whatever the others answer |
| `SchedAnswers.SegmentsConserved` | src/session_pool.c:1242-1284 | in every run, whatever it strands, what a live session has handled and what still waits is what it had followed by everything brought to it, in order |
| `SchedAnswers.CloseEnds` | src/session_pool.c:943-956 | closing a session leaves nothing of it in pool and queues and touches no other |
| `SchedLoops.Scheduler.LinkToQueue` | include/session.h:152-163 | a session whose bit tells its membership ends up queued, at the end of the linked queue if it was not, and a lane in order stays in order |
| `SchedLoops.Scheduler.DataArrived` | src/backend_proto.c:770-848 | the segment is the last one waiting for its session, the session is queued, no other session changes, and an engine in order stays in order |
| `SchedLoops.TakeSegments` | src/session_pool.c:1046-1107 | the buffer size query and the segment loop do what the specification of processing says |
| `SchedLoops.Scheduler.Unlink` | src/engine.c:3390-3396 | the engine's removal, and on an error the second one by delete_sess, leave links that spell the queues without the session |
| `SchedLoops.Scheduler.RunStep` | src/engine.c:3363-3470 | the drain loop of steps 2 and 4, walking the links with the successor saved before each turn, does what the specification says, with the break of step 4, and keeps links and invariant |
| `SessionNodes.NodesConserved` | include/dev.h:145-252 | in every run, also with wrong tail pointers, until an insertion goes through one or the queues of an entry without a device are used, all queues together hold every node of all devices exactly once, and every live session is linked with its node queued at home under its protocol and pointing back at it |
| `SessionNodes.KeepsNodesIff` | src/session_pool.c:969-992 | every device keeps exactly its nodes in every state of a run if and only if no close hits a session whose recorded number is another entry of the device table |
| `SessionNodes.NoLeakIff` | src/session_pool.c:969-992 | no node leaves its device or leaks in any state of a run if and only if every closed session recorded its own device |
| `SessionNodes.NodeChangesDevice` | src/session_pool.c:981-991 | the failing run: a session of device 0 that recorded device 1 is closed, and its node is on device 1 |
| `SessionNodes.LastNodeLeavesStaleTails` | src/session_pool.c:981-991 | the same when its node is the last in its queue: it ends up on device 1 too, and the tail pointers of both TCP queues are wrong |
| `SessionNodes.StaleTailIsUsed` | include/dev.h:195-218 | the next TCP session on device 0 is inserted through the wrong tail pointer |
| `SessionNodes.NodeLeaks` | src/session_pool.c:972-976 | a session that recorded a number outside the table is closed, and its node stays queued without a session |
| `SessionNodes.LeakIsForever` | src/session_pool.c:972-976 | while the queues are followed, wrong tail pointers included, a leaked node stays queued without a session of its own, even if the session's address is handed out again |
| `SessionNodes.CreateIs` | src/session_pool.c:576-665 | a creation queues the first free node or, failing early or late, returns it to the free queue, unless it goes through a wrong tail pointer |
| `SessionNodes.DeleteIs` | src/session_pool.c:981-992 | what deleting does to the node, and to the tail pointers, for each kind of recorded number: its own device, another one, an entry without a device, outside the table |
| `SessionTeardown.DeviceTable.constructor` | src/engine.c:953-970 | set-up leaves ten free nodes on every device |
| `SessionTeardown.DeviceTable.TearQueue` | src/engine.c:3559-3577 | draining a protocol queue frees each of its nodes once; from an intact table it finds only live sessions, from a doomed one it faults or leaves it doomed |
| `SessionTeardown.DeviceTable.TearDown` | src/engine.c:3545-3596 | wrong tail pointers or not, tear-down touches only live sessions if and only if every queued node is that of its live session; then every node is freed exactly once, the queues end empty and no session remains |
| `SessionTeardown.LeakDoomsTearDown` | src/session_pool.c:995-995 | the failing run: open with a number outside the table, close, and a queued node points at the freed session |
| `SessionTeardown.StaleTailsTearDownCleanly` | src/engine.c:3545-3596 | the run that leaves wrong tail pointers on both devices leaves no queued node without its session, so tear-down ends cleanly |
| `RoundRobin.Chooser.Choose` | src/engine.c:223-286 | succeeds if and only if the first probed slot is active, takes that slot, and otherwise leaves the position unchanged |
| `RoundRobin.StuckAtInactive` | src/engine.c:262-273 | once the next slot is inactive every later call fails |
| `RoundRobin.CallSucceedsIff` | src/engine.c:262-273 | a series of calls advances as long as the slots ahead are active and stops for good at the first that is not |
| `RoundRobin.AllActiveVisitsEach` | src/engine.c:223-286 | with all slots active any dev_num consecutive calls visit each slot exactly once |

## Left out

- The software lock for other processors (src/hyperamp_shm_queue.c:159-175): two zones can both read 0 and both proceed.
- Sockets, epoll, namespaces, mmap, ioctl and the demo programs: I/O and foreign calls. Their answers enter as parameters (the schedule's choices, `Answer`, `ready`, `late`).
- NULL-pointer checks and out-of-memory paths: references are non-null and allocation succeeds.
- Cache maintenance, barriers as instructions, debug printing, and the non-creator branch of queue initialisation, which stores one address field.
- Memory ordering weaker than one access at a time: each step of `ShmProtocol` is one access in the order the barriers prescribe.
- `shared_mem_pool_queue_send_oc` with `recv_zc`, the used and surplus memory macros and `shared_mem_pool_queue_initialize`: writer and reader use different slots there, and the index roles are swapped.
- Hash functions, Bloom filter, HASH_SELECT, HASH_REPLACE and HASH_ADD_INORDER: the hash is an arbitrary function of the key.
- Overflow of the 32-bit item counts of uthash and of its inhibition counters beyond two.
- `HashTable.Tbl`: the fields of UT_hash_table are one value that methods replace; elements and their links are heap objects updated in place.
- `Sched.Lane`: sessions are values in a map by identifier, one record per direction; the TAILQ links are modelled in `Tailq`.
- `RoundRobin`: the mask is the set of its bits; shifting by 32 or more is not modelled.
- `IniParser.Load`: the file is a text without NUL characters, opening it is left out, and characters follow the C locale.
- The printing of a NULL value in a dictionary without sections follows one C library.
- Stub handlers (device enable, disable and query, strategy set and query, ZigBee, LoRa, PowerLink) beyond their acceptance: they have no behaviour.
- Discrete mapping mode of the pool queue and MEMORY_ALLOC_CALLER mode, whose message is never returned.
- `Wire.Build`: what happens to memory behind the buffer once a message is longer than it; the model stops at that point.
- `SessionNodes.Table`: the queues after an insertion through a wrong tail pointer, or after use of a table entry that has no device, are not followed further, and what `SessionTeardown.DeviceTable.TearDown` does to them is left open; the run statements cover every state up to that operation.
- `Sched.Forget`: closing a session whose link bit was set from the start removes it from a queue it is not in, through links that were never written; the model leaves the queue as it is, so statements about runs speak of the code up to the first such close.
- The queue of session identifiers, the response messages and the fast path of session creation: they change none of the queues and tables above, and an identifier enters as an arbitrary value.
- `ShmQueue.Queue`: in the object model one processing element runs alone and finds the lock free; contention is the subject of `ShmProtocol`.
