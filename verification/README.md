# Cbeam: the hard core, modelled and proved in Dafny

Cbeam is a header-only C++ library. This project models the parts of it whose correctness is not visible from any
single function, and proves what they promise for every input, every run and every interleaving.

- **Message dispatch** (`Dispatch*.dfy`, `MessageQueue.dfy`). `message_manager` and `threaded_object` as a state
  machine. One action is one atomic operation or one critical section; a check that leads to sleeping and the sleep
  itself are two actions with the mutex held in between; condition variables may wake spuriously; the running flag, the
  deque, the counter and the two condition variables are separate. Any number of queues, handlers, senders, waiters
  and destructors take steps in any order; callbacks may send, wait for a queue and stop handlers as well. A message is known by its ticket: the n-th message enqueued on a queue has
  ticket n. A handler that is added later is a thread that has not taken its first step yet; a queue that does not
  exist yet is an empty one.
- **Reference-counted buffers** (`Reference*.dfy`, `CountTable.dfy`). A heap of blocks, the count table keyed by address
  (whose null key holds the initial count) with a limited number of entries, the handles and the stack of open
  `delay_deallocation` scopes. Addresses answered by `malloc` and `realloc` are inputs. `Exact` says that every count is the number of handles plus the number of open
  scopes that do not have the block in their snapshot.
- **Binary serialization** (`Codecs.dfy`, `Serialization.dfy`, `Serializers.dfy`, `Buffer.dfy`, `OrderedMap.dfy`).
  Numbers, strings, maps, variants and nested maps as functions between values and bytes, and the writing and reading
  loops proved against them. `size_t` and pointers have eight little-endian bytes. `std::map` is the sequence of its
  entries in ascending key order.
- **The shared-memory map** (`SharedRegion.dfy`, `SharedMap.dfy`). Every operation decodes a byte region of fixed size,
  edits the result and writes the encoding over the front of the region.
- **The JSON-like printer and the escaping pair** (`Json.dfy`, `Escape.dfy`).
- **Three algorithms** (`ItemRegistry.dfy`, `PathNormalization.dfy`, `CircularBuffer.dfy`).

Verify everything with `dafny verify dfyconfig.toml`.

Five places where the code does not do what its text or its purpose suggests. The model follows the code; lemmas say
exactly when the promise holds, what follows for every operation that breaks it, and that a run gets there.

- `deregister_item` is documented to throw for an invalid number. In unlimited mode it accepts a number that was never
  given out (include/cbeam/lifecycle/item_registry.hpp:125-140). `StepKeepsPartition` and `RunKeepsPartition` give the
  exact condition. `StrayNumberIsGivenTwice` gives the consequence for every such number below SIZE_MAX;
  `LastNumberIsNeverGivenTwice` says that SIZE_MAX itself is never held twice.
- `append` on an unshared block, when `realloc` moves it while a scope is open, carries the old count to an address
  that the closing scope takes for its own. `AppendMovesExact` gives the exact condition,
  `MovedBlockIsFreedUnderItsHandle` the consequence at any depth: the handle dangles; `DanglingHandleReached` a run.
- A block created while a scope is open, at an address that is in the scope's snapshot and has been freed since, is
  never freed. `NewBlockExact` gives the exact condition, `ReusedAddressLeaks` the consequence at any depth and for
  whatever happens later, `LeakReached` a run.
- The constructor from a raw address that is not tracked throws; the destructor of its base class then frees that
  address. Given null, once a scope has ever been opened, it raises the initial count, and blocks created under that
  count are never freed. `FromAddressExact` gives the exact condition, `UnknownAddressIsFreed` and `NullAddressLeaks`
  the consequences, `UnknownAddressReached` and `NullAddressLeakReached` the runs.
- With a full count table, assignments and appends that make or move a block throw after they have done so. The new block
  is not tracked and is lost with its handle; a moved block's old address stays in the table. `StepExact` includes the
  room in its condition, `FullTableLosesBlock` gives the consequence, `FullTableReached` a run. Constructors and
  scopes that find the table full change nothing.

## Model

| member | source | states |
|---|---|---|
| `DispatchRuns.NoFault` | include/cbeam/concurrency/threaded_object.hpp:197-223 | in a state that satisfies the invariant no step is undefined; in particular a worker that pops without looking again never meets an empty deque |
| `DispatchRuns.StepInv` | include/cbeam/concurrency/message_manager.hpp:174-232 | every atomic action of workers, and of sends, waits and destructors called from outside or from callbacks, keeps mutual exclusion, the ticket accounting of deque, counter and hands, the facts that hold inside critical sections, and both wake-up obligations |
| `DispatchRuns.RunInv` | include/cbeam/concurrency/message_manager.hpp:174-345 | the invariant holds in every state of every run, under every interleaving |
| `DispatchControl.RunMoves` | include/cbeam/concurrency/threaded_object.hpp:195-226 | in every step of every run, every thread stays where it is or moves as the code does: the worker loop from place to place, with the flag, the deque, the mutex, the popped ticket and the counter as the code tests and changes them; a send, a wait and a destructor likewise; and a sleeper counts as notified only by a notify_all that the code makes |
| `DispatchControl.NotifyAllReaches` | include/cbeam/concurrency/message_manager.hpp:228-231 | after the notify_all of a sender, a destructor or a reporting handler nobody sleeps un-notified on its condition variable |
| `DispatchCalls.NextStepIsOpen` | include/cbeam/concurrency/threaded_object.hpp:195-226 | the next step of a thread is enabled if and only if the mutex it takes is free and the worker it joins has left its loop |
| `DispatchCalls.CallsCanBegin` | include/cbeam/concurrency/message_manager.hpp:265-286 | outside the library and in a running callback a send or a wait on any queue can begin, and a destructor of any running handler whose mutex is free |
| `DispatchCalls.CallsBeginAsAsked` | include/cbeam/concurrency/message_manager.hpp:265-345 | a send, a wait and a destructor begin on the queue, with the limit and for the worker they were called for; a destructor has then cleared the flag |
| `DispatchCalls.MutexIsGivenBack` | include/cbeam/concurrency/message_manager.hpp:274-279 | in every reachable state the owner of a mutex can take its next step at once, and that step gives the mutex back |
| `DispatchTheorems.NoLostWakeup` | include/cbeam/concurrency/message_manager.hpp:197-232 | if a thread sleeps un-notified in wait_until_empty, or is about to, while its queue is empty and the counter is 0, some handler has counted down to 0 and still has its locked check to make, and that check notifies the sleeper |
| `DispatchTheorems.SleepingWorkerIsRemembered` | include/cbeam/concurrency/threaded_object.hpp:108-114 | a worker that sleeps un-notified while its deque is non-empty, or while its flag is cleared, has a sender, or its own destructor, between the locked update and the notify_all |
| `DispatchTheorems.QuietMeansHandled` | include/cbeam/concurrency/message_manager.hpp:343-344 | the predicate "deque empty and counter 0" holds exactly when every message ever enqueued has been handled to completion |
| `DispatchTheorems.WaitReturnsExactlyWhenAllHandled` | include/cbeam/concurrency/message_manager.hpp:327-345 | a check of wait_until_empty lets the caller return if and only if every message enqueued before that check has been handled to completion |
| `DispatchTheorems.WaitEndsOnlyWhenAllHandled` | include/cbeam/concurrency/message_manager.hpp:341-344 | whatever the step, a thread leaves wait_until_empty only to return, and only when every message enqueued until then has been handled to completion; a wake-up alone never returns |
| `DispatchTheorems.ReturnMeansAllHandled` | include/cbeam/concurrency/message_manager.hpp:327-345 | a step in which some thread leaves the wait on a queue finds all its messages handled |
| `DispatchTheorems.CallbackNeverSeesItsQueueEmpty` | include/cbeam/concurrency/message_manager.hpp:204-232 | a callback that waits for its own queue never passes the check, since its own message is still held |
| `DispatchTheorems.RunGrows` | include/cbeam/concurrency/message_manager.hpp:204-232 | along a run tickets and their origins never change, and a handled (or dropped) message stays handled (or dropped) |
| `DispatchTheorems.NoLateDescendants` | include/cbeam/concurrency/message_manager.hpp:204-232 | once the first messages of a queue are handled, no later message anywhere originates from their callbacks |
| `DispatchTheorems.PipelineDrains` | include/cbeam/concurrency/message_manager.hpp:87-93 | after some thread has left the wait upstream and then one the wait downstream, at every later moment each downstream message sent from a callback of a message that was upstream at the first return has been handled |
| `DispatchTheorems.OriginsKnown` | include/cbeam/concurrency/message_manager.hpp:265-286 | the callback recorded behind any message is that of a message that was itself enqueued before |
| `DispatchTheorems.PipelineStaysDrained` | include/cbeam/concurrency/message_manager.hpp:87-93 | if nothing new is sent upstream and the downstream queue is fed by upstream callbacks alone, the downstream queue is quiet, with all messages handled, at every moment after both waits have returned |
| `DispatchHistory.EventHappens` | include/cbeam/concurrency/message_manager.hpp:174-232 | what any action does to the messages of any queue is exactly one of: nothing, one pop, one push, one completion, one drop |
| `DispatchHistory.RunStep` | include/cbeam/concurrency/message_manager.hpp:174-286 | every step of a run does one such thing to a queue and has the matching cause: a pop comes from a running handler of that queue with empty hands and at the index of its order, a push from a sender that found room, a completion or drop from the worker that holds the message |
| `DispatchHistory.Conservation` | include/cbeam/concurrency/message_manager.hpp:174-232 | in every reachable state each message ever enqueued is exactly once in exactly one of: deque, one worker's hands, log of completed callbacks, dropped; no message is popped or handled twice; the counter is the number of held and dropped messages |
| `DispatchTheorems.OnlyStoppedWorkersDrop` | include/cbeam/concurrency/threaded_object.hpp:213-223 | a message is dropped only by the worker that holds it, at its second look at the flag, after the flag was cleared |
| `DispatchTheorems.DroppedMessageBlocksWaiters` | include/cbeam/concurrency/message_manager.hpp:341-344 | after a drop the queue is never quiet again, so no later check of wait_until_empty succeeds |
| `DispatchTheorems.PopTakesByOrder` | include/cbeam/concurrency/message_manager.hpp:174-195 | every change of the pop history is made by a running handler of the queue and appends one queued message: the oldest one still queued for FIFO, the newest for FILO |
| `DispatchTheorems.FifoOrder` | include/cbeam/concurrency/message_manager.hpp:178-183 | with only FIFO handlers the pop history followed by the deque is always the enqueue history |
| `DispatchTheorems.RunPopOrder` | include/cbeam/concurrency/threaded_object.hpp:197-223 | a queue with a single handler completes its messages in the order popped; what was popped and not completed is the one message in hand, or the one dropped at shutdown |
| `DispatchTheorems.SingleHandlerInSendOrder` | include/cbeam/concurrency/message_manager.hpp:178-183 | a single FIFO handler completes the messages 0, 1, 2, ... in send order without gaps |
| `DispatchTheorems.QueueNeverExceedsLimit` | include/cbeam/concurrency/message_manager.hpp:274-279 | if every send to a queue uses the same nonzero limit, the deque is never longer than it |
| `DispatchCalls.SendEndsOnlyWithPush` | include/cbeam/concurrency/message_manager.hpp:274-282 | whatever the step, a thread leaves the locked part of a send only by finding room, appending exactly one ticket that records the callback it came from, and turning to its notification |
| `DispatchCalls.SendDelivers` | include/cbeam/concurrency/message_manager.hpp:265-286 | between the beginning of a send and any later moment at which it is over there is exactly such a step |
| `DispatchCalls.SendReturnsAfterNotifying` | include/cbeam/concurrency/message_manager.hpp:282 | a call that returns, and is neither a wait nor a destructor, returns from its notify_all |
| `DispatchCalls.TrySendPushesIffRoom` | include/cbeam/concurrency/message_manager.hpp:276-278 | an attempt to send appends a ticket if and only if there is no limit or the deque is shorter than it |
| `DispatchCalls.FlagsOnlyCleared` | include/cbeam/concurrency/threaded_object.hpp:108-113 | a flag changes only by being cleared, by a destructor that still has its notification to make |
| `DispatchCalls.ExitedMeansStopped` | include/cbeam/concurrency/threaded_object.hpp:197 | a worker has left its loop only if its flag is cleared, and so is the flag of every worker whose destructor has passed its locked part |
| `DispatchCalls.DestructorStopsWorker` | include/cbeam/concurrency/threaded_object.hpp:108-128 | after a destructor has returned, its worker has left the loop and its flag is cleared, at every later moment |
| `DispatchDelivery.WorkerHandlesNext` | include/cbeam/concurrency/threaded_object.hpp:197-223 | from any state that satisfies the invariant, a worker at the top of its loop with its flag set, a message waiting and the mutex free has five steps that complete the message its order asks for |
| `DispatchDelivery.SentMessageIsHandled` | include/cbeam/concurrency/message_manager.hpp:204-286 | from every start, with any handlers, orders and threads, there is a run in which a client's message is sent and handled |
| `MessageQueue.Mailbox.GetMessage` | include/cbeam/concurrency/message_manager.hpp:174-202 | the switch over the order gives the message that was sent under the ticket at the protocol's index, removes it and no other, keeps the rest in order, adds one to the counter, and keeps the protocol's accounting |
| `MessageQueue.Mailbox.EmplaceBack` | include/cbeam/concurrency/message_manager.hpp:274-279 | the locked part of a send appends the message under the next ticket, as the protocol's push does, and keeps the protocol's accounting |
| `MessageQueue.Mailbox.FinishMessage` | include/cbeam/concurrency/message_manager.hpp:220-221 | the decrement after a held message is the protocol's completion, its result is the new counter, and the accounting is kept |
| `MessageQueue.Mailbox.IsQuiet` | include/cbeam/concurrency/message_manager.hpp:343-344 | the waiters' predicate holds exactly when every message ever sent has been handled to completion |
| `ReferenceCounting.NewBlockExact` | include/cbeam/container/stable_reference_buffer.hpp:168-188 | a new block at a fresh address is counted exactly if and only if no open scope has that address in its snapshot |
| `ReferenceCounting.FromAddressExact` | include/cbeam/container/stable_reference_buffer.hpp:199-209 | the raw-address constructor keeps the counts exact if and only if the address is a live block, or null before any scope was opened |
| `ReferenceCounting.ResetExact` | include/cbeam/container/stable_reference_buffer.hpp:404-440 | resetting any handle keeps all counts exact and frees nothing that is referenced |
| `ReferenceCounting.AssignExact` | include/cbeam/container/stable_reference_buffer.hpp:334-354 | copy assignment keeps all counts exact, also for self-assignment, for a refused source, and when both handles share a block |
| `ReferenceCounting.SwapExact` | include/cbeam/container/stable_reference_buffer.hpp:446-450 | swapping handles keeps all counts exact |
| `ReferenceCounting.OpenExact` | include/cbeam/container/stable_reference_buffer.hpp:85-96 | opening a scope keeps all counts exact |
| `ReferenceCounting.CloseExact` | include/cbeam/container/stable_reference_buffer.hpp:98-152 | closing the innermost scope keeps all counts exact |
| `ReferenceCounting.AppendMovesExact` | include/cbeam/container/stable_reference_buffer.hpp:282-300 | an append whose realloc moves an unshared block keeps the counts exact if and only if the table has room for the new address and every open scope has it in its snapshot |
| `ReferenceCounting.AssignBufferExact` | include/cbeam/container/stable_reference_buffer.hpp:356-377 | assignment from a plain buffer keeps the counts exact if and only if it is refused, or the table has room after the reset and no open scope has the new address in its snapshot |
| `ReferenceCounting.StepExact` | include/cbeam/container/stable_reference_buffer.hpp:160-450 | every operation keeps the reference-count invariant if and only if it is disciplined, a condition on the address answered or given, on the open snapshots and on the room in the table |
| `ReferenceTheorems.RunExact` | include/cbeam/container/stable_reference_buffer.hpp:85-450 | over every run of disciplined operations: tracked addresses are exactly the live blocks, each count is its handles plus the scopes it is owed to, every non-null handle is on a live block of its size, nothing is freed twice or read after it was freed |
| `ReferenceTheorems.RunExactIffDisciplined` | include/cbeam/container/stable_reference_buffer.hpp:85-450 | the invariant holds throughout a run if and only if every operation of the run is disciplined |
| `ReferenceTheorems.BlockOutlivesHandles` | include/cbeam/container/stable_reference_buffer.hpp:85-152 | a block that is not in the snapshot of an open scope keeps its address and bytes until that scope closes, whatever handles are reset, destroyed, reassigned or appended to and whatever inner scopes close |
| `ReferenceTheorems.CloseFreesExactly` | include/cbeam/container/stable_reference_buffer.hpp:98-152 | closing frees exactly the blocks created since the scope opened that no handle refers to and no outer scope owes; the others keep their bytes; the initial count is one plus the remaining depth |
| `ReferenceTheorems.SafeGetExactly` | include/cbeam/container/stable_reference_buffer.hpp:322-331 | safe_get gives the address exactly when another handle, or an open scope, also keeps the block |
| `ReferenceTheorems.AppendIsolated` | include/cbeam/container/stable_reference_buffer.hpp:228-301 | append, shared or exclusive, gives the handle its bytes followed by the new ones, and changes neither the block nor the size seen through any other handle |
| `ReferenceTheorems.AppendsAgreeWithPlainBuffer` | include/cbeam/container/buffer.hpp:96-109 | any series of appends through one handle gives it the concatenation a plain buffer holds and changes nothing behind the others |
| `ReferenceMeaning.ResetMeans` | include/cbeam/container/stable_reference_buffer.hpp:404-440 | the handle is unset, its block is freed exactly when nothing else refers to it, and no other handle is affected |
| `ReferenceMeaning.DestroyMeans` | include/cbeam/container/stable_reference_buffer.hpp:191-194 | the handle is gone, with the same effect on blocks and counts as a reset |
| `ReferenceMeaning.DefaultMeans` | include/cbeam/container/stable_reference_buffer.hpp:160-163 | the new handle is unset and nothing else changes |
| `ReferenceMeaning.AllocateMeans` | include/cbeam/container/stable_reference_buffer.hpp:168-177 | the new handle is on a new block with the given content and size; a full table leaves everything as it was |
| `ReferenceMeaning.FromBufferMeans` | include/cbeam/container/stable_reference_buffer.hpp:179-188 | the new handle sees the plain buffer's bytes in a block of its own; an unset buffer or a full table leaves everything as it was |
| `ReferenceMeaning.FromAddressMeans` | include/cbeam/container/stable_reference_buffer.hpp:199-209 | for the address of a live block the new handle is on that block with size 0, which has one reference more, and nothing else changes |
| `ReferenceMeaning.CopyMeans` | include/cbeam/container/stable_reference_buffer.hpp:212-225 | the copy is on the same block with the same size and bytes, the block has one reference more, and nothing else changes; an unset source leaves everything as it was |
| `ReferenceMeaning.AssignMeans` | include/cbeam/container/stable_reference_buffer.hpp:334-354 | the target is on the source's block with the same size and bytes, the block has one reference more unless the target was on it already, and no other handle is affected; self-assignment and an unset source change nothing |
| `ReferenceMeaning.AssignBufferMeans` | include/cbeam/container/stable_reference_buffer.hpp:356-377 | the target sees the plain buffer's bytes in a block of its own, and is unset for an unset buffer; no other handle is affected |
| `ReferenceMeaning.SwapMeans` | include/cbeam/container/stable_reference_buffer.hpp:446-450 | the two handles and what they see change places; blocks, counts and scopes stay |
| `ReferenceMeaning.OpenMeans` | include/cbeam/container/stable_reference_buffer.hpp:85-96 | one scope more, whose snapshot is exactly the live addresses and the null entry if there is one, and an initial count one higher; a full table changes nothing |
| `ReferenceMeaning.AppendMeans` | include/cbeam/container/stable_reference_buffer.hpp:228-301 | the handle is at the address answered, with the size and bytes extended by the data, and no other handle or scope is affected; a refused append changes nothing |
| `ReferenceHazards.MovedBlockIsFreedUnderItsHandle` | include/cbeam/container/stable_reference_buffer.hpp:288-294 | every append that moves an unshared block to an address that some open scope, at any depth, does not know leaves the handle dangling when that scope has closed |
| `ReferenceHazards.ReusedAddressLeaks` | include/cbeam/container/stable_reference_buffer.hpp:85-152 | a block created in whatever way at an address in the snapshot of any open scope is there with its bytes at every later moment of every run, whatever operations follow |
| `ReferenceHazards.DanglingHandleReached` | include/cbeam/container/stable_reference_buffer.hpp:282-300 | four operations reach a state in which a handle is on a freed block |
| `ReferenceHazards.LeakReached` | include/cbeam/container/stable_reference_buffer.hpp:98-152 | six operations reach a state in which a block without handle and without scope is alive |
| `ReferenceHazards.StepSurvives` | include/cbeam/container/stable_reference_buffer.hpp:85-450 | no operation, disciplined or not, frees a block whose count exceeds its references, and the excess stays |
| `ReferenceHazards.UnknownAddressIsFreed` | include/cbeam/container/stable_reference_buffer.hpp:199-209 | the constructor from an address of no live block ends with a free of that address |
| `ReferenceHazards.NullAddressLeaks` | include/cbeam/container/stable_reference_buffer.hpp:199-209 | the constructor from null, once the null entry exists, raises the initial count, and the next block created has a count that exceeds its references, whatever its address |
| `ReferenceHazards.UnknownAddressReached` | include/cbeam/container/stable_reference_buffer.hpp:199-209 | one operation reaches a state in which unallocated memory was freed |
| `ReferenceHazards.NullAddressLeakReached` | include/cbeam/container/stable_reference_buffer.hpp:199-209 | five operations reach a state in which a block without handle and without scope is alive |
| `ReferenceHazards.FullTableLosesBlock` | include/cbeam/container/stable_reference_buffer.hpp:286-300 | when an append or an assignment meets a full table, resetting the handle afterwards leaves the new block alive, without handle and untracked; after a moving append the dead old address is still tracked |
| `ReferenceHazards.FullTableReached` | include/cbeam/container/stable_reference_buffer.hpp:288-294 | with room for one entry, three operations reach a state with a dead address in the table and a live block outside it |
| `CountTable.FullMeansNoRoom` | include/cbeam/container/stable_reference_buffer.hpp:463-483 | for a region of any size that holds the table, an operation on the region fails for lack of room exactly when it enters an address that the reference-counting model calls full |
| `CountTable.RunTableOk` | include/cbeam/container/stable_reference_buffer.hpp:85-450 | no run of any operations overfills the table, and the null entry is there while a scope is open, so closing a scope never needs room |
| `ReferenceRuntime.Runtime.ResetBuffer` | include/cbeam/container/stable_reference_buffer.hpp:404-440 | the method on mutable tables is the model's Reset step |
| `ReferenceRuntime.Runtime.InsertCount` | include/cbeam/container/stable_interprocess_map.hpp:139-146 | enters a count, or throws and changes nothing exactly when the table is full |
| `ReferenceRuntime.Runtime.AssignFrom` | include/cbeam/container/stable_reference_buffer.hpp:334-354 | the method is the model's Assign step and throws exactly for an unset other handle |
| `ReferenceRuntime.Runtime.AppendBytes` | include/cbeam/container/stable_reference_buffer.hpp:228-301 | the method with its branches is the model's Append step, and throws exactly for a handle without a known size and for a new address that the table has no room for |
| `ReferenceRuntime.Runtime.OpenScope` | include/cbeam/container/stable_reference_buffer.hpp:85-96 | the snapshot and the raised initial count are the model's Open step; it throws exactly when there is no room for the null entry |
| `ReferenceRuntime.Runtime.SweepEntries` | include/cbeam/container/stable_reference_buffer.hpp:114-141 | the loop takes one reference off each new entry and frees those that reach zero, in whatever order it visits them |
| `ReferenceRuntime.Runtime.CloseScope` | include/cbeam/container/stable_reference_buffer.hpp:98-152 | the destructor of a scope is the model's Close step |
| `Buffer.ByteBuffer.Append` | include/cbeam/container/buffer.hpp:96-109 | the contents become the old contents followed by the data |
| `Buffer.ByteBuffer.AssignFrom` | include/cbeam/container/buffer.hpp:118-138 | a deep copy in a block of its own; an unset source is refused and changes nothing |
| `Buffer.ByteBuffer.Clear` | include/cbeam/container/buffer.hpp:147-152 | reset leaves no block |
| `Buffer.ByteBuffer.SwapWith` | include/cbeam/container/buffer.hpp:156-160 | the two contents change places, also for a buffer and itself |
| `OrderedMap.InsertAtEnd` | include/cbeam/serialization/map.hpp:87-94 | inserting a key above all others appends its entry |
| `OrderedMap.FindIsLookup` | include/cbeam/container/stable_interprocess_map.hpp:97-132 | finding in the ordered entries is lookup in the mathematical map |
| `OrderedMap.PutIsUpdate` | include/cbeam/container/stable_interprocess_map.hpp:139-146 | assigning through operator[] is map update, and grows the map exactly for a new key |
| `OrderedMap.InsertIsUpdateIfNew` | include/cbeam/serialization/map.hpp:93 | insert adds a new key and leaves the map alone if the key is there, so of duplicate keys the first one wins |
| `OrderedMap.RemoveIsErase` | include/cbeam/container/stable_interprocess_map.hpp:152-159 | erasing is map removal |
| `OrderedMap.PutLength` | include/cbeam/container/stable_interprocess_map.hpp:139-159 | for any comparison, writing adds an entry exactly when no equivalent key is found, and erasing adds none |
| `OrderedMap.SizeIsCardinality` | include/cbeam/container/stable_interprocess_container.hpp:135-139 | the number of entries is the number of keys |
| `Codecs.WidthRoundTrip` | include/cbeam/serialization/traits.hpp:63-84 | a fixed-width value followed by any bytes decodes to itself and leaves exactly those bytes |
| `Codecs.WidthDecodesOnlyEncodings` | include/cbeam/serialization/traits.hpp:77-84 | the bytes read as a fixed-width value are its encoding |
| `Codecs.WordExample` | include/cbeam/serialization/traits.hpp:63-67 | values are little-endian |
| `Codecs.TextRoundTrip` | include/cbeam/serialization/string.hpp:59-90 | the same for length-prefixed strings of any content |
| `Codecs.TextDecodesOnlyEncodings` | include/cbeam/serialization/string.hpp:79-90 | the bytes read as a string are its encoding |
| `Codecs.PointerTextRoundTrip` | include/cbeam/convert/string.hpp:291-297 | reading the hexadecimal text of any address, null included, gives the address back; the text has at most 18 characters |
| `Codecs.PointerReading` | include/cbeam/convert/string.hpp:160-161 | hexadecimal digits in either case, with or without 0x in front, read as their number |
| `Codecs.PointerTextExample` | include/cbeam/convert/string.hpp:291-297 | the text of an address has lower-case digits behind 0x, and that of null is 0 |
| `Codecs.MapRoundTrip` | include/cbeam/serialization/map.hpp:56-95 | for any key and value codecs that round-trip, the encoding of a map followed by any bytes decodes to the map and leaves exactly those bytes |
| `Serialization.XpodOrder` | include/cbeam/container/xpod.hpp:46-55 | the comparison of variants, by type and then by value, is a strict order, with both zeros of floating point equivalent |
| `Serialization.TextOrder` | include/cbeam/container/xpod.hpp:46 | strings are ordered by their first difference, a proper prefix first |
| `Serialization.DoubleOrder` | include/cbeam/container/xpod.hpp:46 | doubles other than NaN are ordered as the numbers that their sign, exponent and fraction stand for |
| `Serialization.VariantOrder` | include/cbeam/container/xpod.hpp:46-55 | variants other than NaN are ordered by kind (integer, double, boolean, pointer, string) and then by value, as numbers, addresses and dictionaries are |
| `Serialization.XpodRoundTrip` | include/cbeam/serialization/xpod.hpp:67-182 | every variant, in all five cases, round-trips in front of any bytes |
| `Serialization.XpodDecodesOnlyEncodings` | include/cbeam/serialization/xpod.hpp:127-182 | bytes that decode to a variant are its encoding (for a pointer: any hexadecimal text of it), so unknown type bytes and truncated or malformed values are refused |
| `Serialization.XpodExamples` | include/cbeam/serialization/xpod.hpp:67-115 | the type byte and the bytes of each kind of value |
| `Serialization.NestedRoundTrip` | include/cbeam/serialization/nested_map.hpp:53-71 | the encoding of a nested map of any depth, followed by any bytes, decodes to the same nested map and leaves exactly those bytes |
| `Serialization.NestedPrefixFree` | include/cbeam/serialization/nested_map.hpp:53-71 | encodings are injective and none is a proper prefix of another |
| `Serializers.WriteText` | include/cbeam/serialization/string.hpp:59-68 | the loop appends exactly the string's encoding |
| `Serializers.WriteXpod` | include/cbeam/serialization/xpod.hpp:67-115 | the switch appends exactly the variant's encoding |
| `Serializers.WriteMap` | include/cbeam/serialization/map.hpp:56-66 | the loop appends exactly the map's encoding |
| `Serializers.ReadMap` | include/cbeam/serialization/map.hpp:77-95 | on any bytes the reading loop computes the decoding function |
| `Serializers.WriteNested` | include/cbeam/serialization/nested_map.hpp:53-57 | the recursion appends exactly the nested map's encoding |
| `Serializers.WriteSubTables` | include/cbeam/serialization/map.hpp:61-65 | the loop over sub-tables, recursing into each, appends exactly their encodings |
| `Serializers.ReadNested` | include/cbeam/serialization/nested_map.hpp:65-71 | on any bytes the recursive reader computes the decoding function |
| `Serializers.ReadSubTables` | include/cbeam/serialization/map.hpp:87-94 | the same for the loop over sub-tables |
| `SharedRegion.ZerosAreEmpty` | include/cbeam/container/stable_interprocess_container.hpp:184-198 | a zero-filled region is the empty map |
| `SharedRegion.LoadsWhatItRepresents` | include/cbeam/container/stable_interprocess_container.hpp:184-198 | decoding a region that starts with a map's encoding gives that map, whatever bytes follow |
| `SharedRegion.PerformRefines` | include/cbeam/container/stable_interprocess_map.hpp:77-237 | each operation on the region has the outcome of the plain map, leaves a region that represents the plain map's new value despite stale bytes, and changes nothing when it fails |
| `SharedRegion.SharedMapRefinesPlainMap` | include/cbeam/container/stable_interprocess_container.hpp:184-224 | from a zero-filled region, after any operations, the region decodes to what the plain map of the same capacity holds |
| `SharedMap.EditedIsMapEdited` | include/cbeam/container/stable_interprocess_map.hpp:77-237 | every edit on ordered entries is the corresponding edit of the mathematical map, failing in the same cases |
| `SharedMap.EditsOneKey` | include/cbeam/container/stable_interprocess_map.hpp:139-237 | each operation on one key leaves all other keys alone and makes of its own what the operation says; only an update of a missing key fails |
| `SharedMap.UnlistedStay` | include/cbeam/container/stable_interprocess_map.hpp:79-84 | assigning a list leaves keys outside it alone |
| `SharedMap.LastEntryWins` | include/cbeam/container/stable_interprocess_map.hpp:79-84 | a key in an assigned list gets the value of its last entry |
| `SharedMap.SharedMapIsAMap` | include/cbeam/container/stable_interprocess_map.hpp:77-237 | with fixed-width entries and totally ordered keys, after any operations from a zero-filled region, lookups and size are those of a mathematical map that took the same operations and refuses only for lack of room |
| `SharedMap.OnlyNewKeysNeedRoom` | include/cbeam/container/stable_interprocess_container.hpp:209-224 | with fixed-width entries and any strict order of keys, lack of room happens exactly when a key without equivalent is written and header plus one more entry does not fit; update, overwrite, erase and clear never fail for it |
| `SharedMap.CountTableOk` | include/cbeam/container/stable_reference_buffer.hpp:463-483 | the codecs of the count table, addresses to four-byte counts, round-trip and have fixed width |
| `SharedMap.CountTableCapacity` | include/cbeam/container/stable_reference_buffer.hpp:463-483 | the default table of 64 KiB holds at most 5460 entries and refuses an insertion exactly when it holds 5460 and the key is new |
| `SharedMap.VariantTableOk` | include/cbeam/container/xpod.hpp:46-55 | maps from variants to variants satisfy what the refinement results require, although two zeros are equivalent without being equal |
| `SharedMap.InterprocessMap.Serialize` | include/cbeam/container/stable_interprocess_container.hpp:209-224 | the capacity check, then the copy over the front of the region; the bytes behind it stay |
| `SharedMap.InterprocessMap.InsertEntry` | include/cbeam/container/stable_interprocess_map.hpp:139-146 | is the refined insertion, region and outcome |
| `SharedMap.InterprocessMap.EraseEntry` | include/cbeam/container/stable_interprocess_map.hpp:152-159 | is the refined erasure, region and outcome |
| `SharedMap.InterprocessMap.UpdateEntry` | include/cbeam/container/stable_interprocess_map.hpp:224-237 | is the refined update, fails for a missing key, and answers the updated value |
| `SharedMap.InterprocessMap.UpdateOrInsertEntry` | include/cbeam/container/stable_interprocess_map.hpp:190-205 | is the refined update-or-insert, region and outcome |
| `SharedMap.InterprocessMap.ClearAll` | include/cbeam/container/stable_interprocess_container.hpp:109-113 | is the refined clearing, also of an unreadable region |
| `SharedMap.InterprocessMap.AssignList` | include/cbeam/container/stable_interprocess_map.hpp:77-89 | the loop over the list is the refined assignment, later entries winning |
| `SharedMap.InterprocessMap.Lookup` | include/cbeam/container/stable_interprocess_map.hpp:97-171 | answers what finding in the represented entries gives, which for totally ordered keys is the value of the mathematical map, or that the key is missing |
| `SharedMap.InterprocessMap.Size` | include/cbeam/container/stable_interprocess_container.hpp:135-139 | answers the size of the mathematical map that the region represents |
| `Escape.EscapeString` | include/cbeam/convert/string.hpp:97-109 | the loop computes the escaping function |
| `Escape.UnescapeString` | include/cbeam/convert/string.hpp:132-153 | the loop with its look-ahead computes the unescaping function |
| `Escape.UnescapeUndoesEscape` | include/cbeam/convert/string.hpp:97-153 | unescaping undoes escaping for every text, escape character and set, whether or not the escape character is in the set |
| `Escape.EscapedJoin` | include/cbeam/convert/string.hpp:97-109 | escaping works character by character, putting the escape character before exactly the characters of the set |
| `Escape.NothingToUnescape` | include/cbeam/convert/string.hpp:132-153 | text in which no escape character stands directly before a character of the set is left as it is |
| `Json.ReadPrinted` | include/cbeam/json/string.hpp:52-58 | a reader recovers any printed string and stops right behind its closing quote, so no unescaped quote is inside |
| `Json.PrintedCharacter` | include/cbeam/json/traits.hpp:38-39 | a backslash goes before exactly seven characters |
| `Json.ReadPrintedTable` | include/cbeam/json/nested_map.hpp:56-109 | a reader recovers a printed nested map of any depth, also when a key occurs among values and sub-tables |
| `Json.PrinterIsInjective` | include/cbeam/json/nested_map.hpp:56-109 | nested maps with the same text are equal |
| `Json.PrintedExample` | include/cbeam/json/nested_map.hpp:56-109 | the exact text of a small nested map |
| `Json.WriteString` | include/cbeam/json/string.hpp:52-58 | appends exactly the printed string |
| `Json.WriteData` | include/cbeam/json/nested_map.hpp:68-85 | the loop over the values appends exactly their printed members and answers whether a comma is due |
| `Json.WriteTables` | include/cbeam/json/nested_map.hpp:88-105 | the loop over the sub-tables, recursing into each, appends exactly their printed members |
| `Json.WriteTable` | include/cbeam/json/nested_map.hpp:56-109 | braces around the two loops, with the comma state passed from the first to the second, append exactly the printed nested map |
| `ItemRegistry.StepKeepsPartition` | include/cbeam/lifecycle/item_registry.hpp:84-140 | after a call every number below the bound is still either held once or available, and no other number is known, if and only if the call is a registration, the registry is limited, or the number was given out before |
| `ItemRegistry.RunKeepsPartition` | include/cbeam/lifecycle/item_registry.hpp:64-140 | for any sequence of calls from construction on, the partition holds throughout if and only if every call is of that kind |
| `ItemRegistry.LimitedAlwaysPartitions` | include/cbeam/lifecycle/item_registry.hpp:64-140 | in limited mode held and available numbers partition the range after any sequence of calls |
| `ItemRegistry.RegisterGivesLeastFree` | include/cbeam/lifecycle/item_registry.hpp:84-114 | a registration gives the least number nobody holds, at most the number of held ones, and overflows exactly when all numbers of the mode are held |
| `ItemRegistry.RegisterTakesNumber` | include/cbeam/lifecycle/item_registry.hpp:84-114 | the number given is then held once and not available, the counter moves only when it gave the number, and no other number is affected; an overflow changes nothing |
| `ItemRegistry.DeregisterFreesNumber` | include/cbeam/lifecycle/item_registry.hpp:125-140 | a held number is taken back and becomes available, and no other number is affected; the reply is Invalid exactly above the limit and AlreadyDeregistered exactly for an available number, and then nothing changes |
| `ItemRegistry.GivenBackIsGivenAgain` | include/cbeam/lifecycle/item_registry.hpp:84-140 | a number that is given back, and is below all available ones, is the next to be given, which restores the state |
| `ItemRegistry.StrayNumberIsGivenTwice` | include/cbeam/lifecycle/item_registry.hpp:125-140 | in unlimited mode, deregistering any number not yet given out and below SIZE_MAX succeeds, and after a stated number of registrations two clients hold it |
| `ItemRegistry.LastNumberIsNeverGivenTwice` | include/cbeam/lifecycle/item_registry.hpp:100-140 | in unlimited mode, after any calls whatever, at most one client holds SIZE_MAX, and not while it is available |
| `ItemRegistry.ItemRegistry.constructor` | include/cbeam/lifecycle/item_registry.hpp:64-71 | the loop makes all numbers below the limit available |
| `ItemRegistry.ItemRegistry.RegisterItem` | include/cbeam/lifecycle/item_registry.hpp:84-114 | the method is the model's registration, new state and reply |
| `ItemRegistry.ItemRegistry.DeregisterItem` | include/cbeam/lifecycle/item_registry.hpp:125-140 | the method is the model's deregistration, with both refusals |
| `PathNormalization.Normalize` | include/cbeam/filesystem/path.hpp:319-362 | the scan from right to left with a counter of pending parents computes the resolution from left to right with a stack that ignores ".." at the bottom |
| `PathNormalization.NormalizedHasNoParents` | include/cbeam/filesystem/path.hpp:319-362 | no ".." is left, and the result is absolute exactly when the path is |
| `PathNormalization.NormalizeIsIdempotent` | include/cbeam/filesystem/path.hpp:319-362 | normalizing a normalized path changes nothing |
| `PathNormalization.PlainPathKeepsComponents` | include/cbeam/filesystem/path.hpp:330 | for a path without .. the result is exactly its components other than /, \\ and empty ones, in order, behind the root if there is one and before a trailing separator |
| `PathNormalization.ParentCancels` | include/cbeam/filesystem/path.hpp:332-339 | anywhere in a path, a name followed by .. can be left out |
| `PathNormalization.ParentAtRoot` | include/cbeam/filesystem/path.hpp:332-335 | directly behind the root, .. can be left out |
| `CircularBuffer.Ring.PushBack` | include/cbeam/container/circular_buffer.hpp:93-101 | one element is added to the history, and the array still holds its last elements in order from the oldest |
| `CircularBuffer.Ring.Clear` | include/cbeam/container/circular_buffer.hpp:105-109 | the history starts anew |
| `CircularBuffer.Ring.At` | include/cbeam/container/circular_buffer.hpp:132-154 | gives the element at a position of the last min(n, S) pushed ones, and refuses exactly the positions outside |
| `CircularBuffer.Ring.Index` | include/cbeam/container/circular_buffer.hpp:159-170 | unchecked access agrees inside the view; on a full buffer it wraps around modulo the size, except that the last positions of size_t, where the sum overflows, are the newest elements |
| `CircularBuffer.Ring.Front` | include/cbeam/container/circular_buffer.hpp:174-184 | gives the oldest element still held |
| `CircularBuffer.Ring.Back` | include/cbeam/container/circular_buffer.hpp:188-198 | gives the last element pushed |
| `CircularBuffer.Ring.Elements` | include/cbeam/container/circular_buffer.hpp:61-78 | the range from begin() to end() is a rotation of the view, by a stated amount |

## Left out

- Progress: safety and the remaining obligations to notify are proved, not that blocked threads run; a pop does not
  notify senders blocked on a full queue (include/cbeam/concurrency/message_manager.hpp:174-202), so none is claimed.
- Disposing a busy message_handler, whose derived part is gone before its thread stops; shutdown is modelled as
  threaded_object states it.
- Message loggers, thread names and the exception and exit callbacks; in the state machine the payload of messages
  (tickets stand for them; the mailbox holds the messages themselves); the map from message ids to queues and its mutex; a destructor waits only in join.
- The imperative form of the worker loop: its steps are actions of the state machine, because other threads run in
  between.
- Scopes that do not close last-in first-out, failure to allocate, several processes, swap of a reference buffer with a
  plain buffer, and append of a buffer's own bytes to itself.
- ReferenceTheorems.RunExact: append is given at least one byte, since what realloc answers for an empty block is up
  to the implementation.
- Doubles are 64-bit patterns; their order is taken from sign and magnitude, NaN keys compare less to nothing. Reading
  pointers covers the documented hexadecimal form only. Decoders answer None where the library throws or would read
  past the end of the data.
- Serializers.ReadNested: the cursor is the sequence of bytes still to be read rather than an address.
- SharedRegion.ZerosAreEmpty: a region shorter than the eight bytes of a count is excluded.
- SharedRegion.PerformRefines: says nothing of use about NaN keys; the standard leaves a map with such keys undefined,
  and the model searches it in entry order.
- SharedMap.SharedMapIsAMap: keys that are equivalent without being equal (the two zeros) have no counterpart in a
  mathematical map; SharedMapRefinesPlainMap covers them.
- Updaters of the shared map are total functions that keep values representable; locking is assumed, so operations
  happen one after the other.
- SharedMap.InterprocessMap.Lookup: stands for at, at_or_default and count; says nothing about a region that represents no map.
- Conformance to section 7 of RFC 8259: escaping puts a backslash before the raw control character. Keys and values
  of the printed maps are strings only.
- PathNormalization.Normalize: works on the components of a path; the empty path, on which the code reads past the end,
  is excluded; Windows drive components are not distinguished (on POSIX systems both branches build the same path); "."
  is an ordinary component, as in the code.
- CircularBuffer.Ring.Front: like Back, for a non-empty buffer; a ring of size 0, or of more elements than an
  object can have bytes, is excluded.
- buffer: construction with a size and out-of-memory errors.
- is_valid_utf8, thread_safe_map, thread_safe_set, scoped_set, singleton, find and the error classes: easy members only.
- Shared memory, named mutexes, processes, threads, platform, logging, io and the file operations of paths: calls into
  the operating system.
