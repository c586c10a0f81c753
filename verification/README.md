# AMPER and its kernel companions: a verified model

A Dafny model of four parts of the repository, with proofs of what they keep.

1. **The RDMA RPC engine in `amper/`.** A client and a server exchange requests through buffers the
   other side writes. `FarmRing` is the ring of request slots as a state machine over its atomic
   steps, and `FarmLayout` the same ring kept in the bytes of the server's region. `ScaleRpc`,
   `ScaleExchange` and `ScaleLoops` are scaleRPC from the encoder to the delivered reply, in its
   direct and its context-switch form, and `ScaleRuns` its runs of many exchanges through the same
   buffers. `BatchCodec` and `BatchLoops` are the two-sided batch formats of DaRPC and UD.
   `SendRegion` is the wrapping bump allocator of the send region, `ReceiveQueue` the rotating
   receive queue, `RfpTags` the alternating-tag protocol, `RequestWindow` the credit window and the
   waiting sweep, and `RegionIndex` the client's hash table of remote allocations beside the
   server's list.
2. **Process, credential and limit calls in `rdma_module/kernel/sys.c`.** `Jobs`, `Credentials`,
   `Limits`, `Sysinfo`. Their standard is IEEE Std 1003.1-2017 (POSIX), System Interfaces, chapter 3.
3. **MurmurHash3** (x86, 32 bit) in `Murmur`.
4. **The older work queue in `amper_beforeFaRM/`** in `WorkQueue`.

Each protocol is a datatype for the state, a `Next` over its atomic steps, an invariant that every step
keeps, and theorems over all runs. Code that updates state or buffers in place is a method, with the
source's branches and loops, proved equal to those functions. `Bytes`, `Copies`, `Modular`,
`Sequences`, `Shifts` and `Wrappers` are shared vocabulary. `dafny verify dfyconfig.toml` checks everything.

## Where the code falls short of its promise

Each of these is a theorem; the exact condition stands beside the counterexample.

- FaRM: the client's request buffer and reply region are sized for one entry; a larger batch does not
  fit (`FarmLayout.LocalBufferFits`, `FarmLayout.ReplyFlagsFit`).
- RFP: a request issued after the tag and before the valid byte is cleared is lost for good
  (`RfpTags.IssuedInWindowIsLost`), and mixing reads and writes lets a stale byte pass for a reply
  (`RfpTags.AcceptsEarlyIff`). `RfpTags.ServesIffSafe` is the exact condition for one more request, and
  `RfpTags.ServesIffHistoryAllows` the same in what the caller knows; scaleRPC has no such window
  (`ScaleRuns.ExchangesDrain`).
- scaleRPC: the client's reply buffer is allocated uncleared, and a stale valid byte in it passes for the
  first reply (`ScaleRuns.PollsEarlyIff`).
- SFLUSH: the flush after a send reads the slot of the next message, not of the one just sent
  (`ReceiveQueue.FlushInRegion`).
- Without the clearing of the write flag, which `amper/` compiles only under `Spwrite`, the worker
  blocks on any operation that follows a write to the same region (`WorkQueue.SpinsNeverBlockIff`,
  `WorkQueue.SecondOperationBlocks`).
- `check_request` waits for what was sent before it began, not for what other callers send meanwhile
  (`RequestWindow.PassingSweepsEndAvailableIff`).
- `do_prlimit` stores (1, 0) for a CPU limit of (0, 0) (`Limits.OrderKeptUnlessZeroCpu`).

## Assumptions

- The adapter delivers writes atomically and in order, and a read sees one moment; `ibv_reg_mr` and the
  memory allocator give keys and addresses no live region has.
- `FaRM_buffer_NUM`, commented out in `amper/include/dhmp.h`, is a parameter `n >= 1`; FaRM is in its
  WFLUSH form. Its handler's mismatched structs are read as one record, `S_mr` is the first region of
  the server's answer, and the client's reply flags start at 0.
- The response handlers' `response_msg + sizeof(...)` is read as a byte offset.
- Registered buffers do not overlap the memory operations address. Batches are 1 to 127 (`char`).
- RFP and scaleRPC operations have the size agreed when the buffers were allocated.
- The receive counter and the receive queue start together: only plain sends are counted.
- `sys.c`: one flat pid namespace; capability checks, security hooks, allocation and user charging are
  arbitrary answers; fork, exec, thread creation and exit are steps that take unused pids. `RLIMIT_CPU`
  (0), `RLIMIT_NOFILE` (7), the number of limits (16) and the page size (4096) are the kernel's; its
  headers are not part of this model.

## Model

| member | source | states |
|---|---|---|
| `FarmRing.RingSafety` | amper/src/dhmp_work.c:609-751 | In every run of any number of callers, for any ring size: at most `n` calls are outstanding, the server consumes what the callers asked for, in the order of their acquiring steps and each once (even when callers queue their work in another order), their slots are released in the same order and never before, and the worker never finds the valid byte of its slot still set. |
| `FarmRing.NextKeepsInv` | amper/src/dhmp_server.c:344-416 | Every atomic step of callers, worker, server poller and client poller keeps: cursors are counts modulo the ring size, a slot is available exactly outside the window of acquired and unreleased calls, a reply flag is set exactly between answer and poll, and each waiting call is in exactly one place. |
| `FarmRing.RunKeepsInv` | amper/src/dhmp_work.c:609-751 | The invariant holds in every reachable state. |
| `FarmRing.RunAcquiresWhatWasAsked` | amper/src/dhmp_client.c:405-439 | The calls a run acquires carry, one for one and in order, what its acquiring steps asked for. |
| `FarmRing.AvailableIff` | amper/src/dhmp_client.c:417-434 | The slot at the acquire cursor is available exactly when fewer than `n` calls are outstanding. |
| `FarmRing.WriteFindsSlotConsumed` | amper/src/dhmp_work.c:609-664 | The worker never overwrites a request the server has not consumed. |
| `FarmRing.ServeFindsNext` | amper/src/dhmp_server.c:337-357 | The request at the server's cursor is that of the next call in order of acquisition. |
| `FarmRing.RingDrains` | amper/src/dhmp_work.c:709-751 | The ring never deadlocks: every step but an acquisition pays one owed step, and one can be taken while a call is outstanding. |
| `FarmRing.AllAvailableMeansDone` | amper/src/dhmp_client.c:299-311 | All slots available means nothing is queued, in a slot, answered or held. |
| `FarmRing.Endpoints.constructor` | amper/src/dhmp_transport.c:335-343 | The initial ring: all slots available, all cursors 0. |
| `FarmRing.Endpoints.TryAcquire` | amper/src/dhmp_client.c:419-434 | One turn of the acquire loop succeeds exactly while fewer than `n` calls are outstanding, and then queues a call with the caller's own job on the slot at the cursor; otherwise it changes nothing. |
| `FarmRing.Endpoints.Append` | amper/src/dhmp_client.c:437-439 | Queueing the work is the enqueue step and keeps the invariant. |
| `FarmRing.Endpoints.WorkerTurn` | amper/src/dhmp_work.c:1384-1400 | Taking the first work and writing its request is the write step. |
| `FarmRing.Endpoints.ServerTurn` | amper/src/dhmp_server.c:344-416 | Consuming a valid byte, replying and moving on are the three server steps. |
| `FarmRing.Endpoints.ClientTurn` | amper/src/dhmp_work.c:723-751 | Consuming a reply flag, releasing its slot and moving on are the three client steps. |
| `FarmLayout.RequestEndsWithSlot` | amper/src/dhmp_work.c:615-691 | For every batch, size, slot and direction the request ends where the slot ends: its valid byte is the byte the server polls and the byte the flush reads, and it starts inside the slot. |
| `FarmLayout.RequestLength` | amper/src/dhmp_work.c:615-641 | The encoded request has the size the handler posts. |
| `FarmLayout.RequestCarries` | amper/src/dhmp_work.c:622-641 | Read by position alone the encoded request carries its job: for every operation in order the data of a write, both addresses and the size, then the direction and a set valid byte. |
| `FarmLayout.SlotsApart` | amper/src/dhmp_server.c:836-837 | Slots are disjoint and inside the allocated region. |
| `FarmLayout.WriteTouchesOneSlot` | amper/src/dhmp_work.c:651-664 | Writing a request leaves the bytes of every other slot as they were and its own slot holding the request. |
| `FarmLayout.FilledPollsSet` | amper/src/dhmp_server.c:336-346 | The server polls a set byte exactly in slots that hold an unconsumed request. |
| `FarmLayout.StepOnBytes` | amper/src/dhmp_server.c:344-416 | Each step of the ring, done on the bytes of the region with the client memory of that moment, keeps the region holding the ring. |
| `FarmLayout.RunRepresents` | amper/src/dhmp_work.c:609-705 | So does every run, the client memory changing at every step. |
| `FarmLayout.RunKeepsLog` | amper/src/dhmp_work.c:615-664 | Each request is written once: the client memory it was encoded from is never replaced in the record of the run. |
| `FarmLayout.EncodesInQueueOrder` | amper/src/dhmp_work.c:1384-1400 | Over a run the j-th request encoded is that of the j-th call queued, from the client memory of the moment. |
| `FarmLayout.ServerReadsNextRequest` | amper/src/dhmp_server.c:336-357 | In every run over a zeroed region, with callers changing their buffers between and during calls, when the poll succeeds the slot (requests taken mod `n`), read by position, carries the job the next acquiring step asked for, from the client memory of the moment its turn in the queue came. |
| `FarmLayout.LocalBufferFits` | amper/src/dhmp_client.c:1188-1194 | The client's buffer, sized for one entry, holds the request exactly when the batch is one operation (or a read whose extra headers fit the unused data part). |
| `FarmLayout.ReplyFlagsFit` | amper/src/dhmp_client.c:1195-1196 | All reply flags lie in the client's reply region exactly for a batch of one, a ring of one, or a batch and ring of two. |
| `FarmLayout.BuildRequest` | amper/src/dhmp_work.c:622-641 | The encoding loop fills the local buffer with the request and touches nothing behind it. |
| `ScaleRpc.BlockDecodes` | amper/src/dhmp_server.c:539-557 | A header with its data is read back exactly, whatever follows it. |
| `ScaleRpc.ServeBody` | amper/src/dhmp_server.c:492-562 | The server's loop over an encoded batch applies each request to what the ones before left, and answers with every header and, for a read, the server's bytes. |
| `ScaleRpc.ServedAllIsCopyAll` | amper/src/dhmp_server.c:539-557 | A served batch of writes is the blocks copied in order; a batch of reads changes nothing. |
| `ScaleRpc.ScatterReply` | amper/src/dhmp_work.c:434-447 | The client's loop over a read reply fills the buffers in order. |
| `ScaleRpc.DeliveredIsCopyAll` | amper/src/dhmp_work.c:434-447 | Filling the buffers one after the other is the blocks copied in order. |
| `ScaleRpc.ReplyLength` | amper/src/dhmp_server.c:558-562 | The reply has the length the handler computes. |
| `Copies.CopyAllLastWins` | amper/src/dhmp_server.c:539-557 | Blocks copied in order, byte by byte: the last block that covers a byte decides it. |
| `Copies.CopyAllUncovered` | amper/src/dhmp_server.c:539-557 | A byte no block covers is untouched. |
| `Copies.CopyAllDisjoint` | amper/src/dhmp_work.c:434-447 | With destinations that do not overlap every destination holds its source block. |
| `ScaleExchange.DirectArrives` | amper/src/dhmp_client.c:1447-1481 | The direct request lands so that its trailer is what the server polls and its batch where the server parses, inside the buffers, for reads and writes. |
| `ScaleExchange.SwitchArrives` | amper/src/dhmp_client.c:1427-1444 | The switch request lands so that its trailer is what the server polls and size and record are where the server looks. |
| `ScaleExchange.ReplyArrives` | amper/src/dhmp_server.c:558-584 | The reply's valid byte lands where the client polls, for reads and writes. |
| `ScaleExchange.FetchGets` | amper/src/dhmp_server.c:505-537 | After a switch the server fetches exactly the encoded batch from the region its record names. |
| `ScaleExchange.DirectExchange` | amper/src/dhmp_client.c:1447-1481 | End to end, direct form, for every batch below 128 and every size: writes leave server memory as if applied in order, reads leave the client's buffers holding the server's bytes, and the client sees the valid byte. |
| `ScaleExchange.SwitchExchange` | amper/src/dhmp_client.c:1409-1446 | The context-switch form has the same outcome, whenever the batch has room for the size and the record. |
| `ScaleExchange.ExchangeFromBody` | amper/src/dhmp_server.c:492-592 | What the handler does depends only on the batch at the front of its bytes. |
| `ScaleRuns.RunsAreCorrect` | amper/src/dhmp_server.c:600-624 | In every run of calls of both kinds in both forms through the same buffers, every byte of them modelled: the calls the issuing steps make are served in order, each once; a call returns only after it was served, and leaves the client's memory with the bytes of its own batch, applied after the calls before it; a poll of the client that succeeds means its call was served. |
| `ScaleRuns.EveryCallCompletes` | amper/src/dhmp_client.c:1401-1485 | Whatever ran before, a client at rest can make any call on addresses in range, in either form, and it completes with server and client memory the outcome of that call. |
| `ScaleRuns.RunIssuesWhatWasMade` | amper/src/dhmp_client.c:1401-1485 | The calls under way in a run are those its issuing steps make, in order. |
| `ScaleRuns.ExchangesDrain` | amper/src/dhmp_server.c:611-621 | No request is lost, not even one written while the handler is still on its way back to its poll: every step but an issue pays one owed step, and while some are owed one can be taken, the handler inside its buffers. |
| `ScaleRuns.NextKeepsInv` | amper/src/dhmp_work.c:387-451 | Every step of the two sides keeps the two valid bytes, the request, the reply and both memories in step. |
| `ScaleRuns.ServesTheCall` | amper/src/dhmp_server.c:492-592 | The handler, from the valid byte it cleared, performs the waiting call's batch in either form and fills the reply that gives the client its bytes. |
| `ScaleRuns.PollsEarlyIff` | amper/src/dhmp_client.c:1164-1172 | The client's reply buffer comes from malloc and is not cleared: some run takes a stale byte for a reply exactly when the byte it polls begins set. |
| `ScaleLoops.EncodeBatch` | amper/src/dhmp_client.c:1459-1471 | The encoding loop writes exactly the encoded batch. |
| `ScaleLoops.PostDirect` | amper/src/dhmp_client.c:1447-1478 | Offset, size and bytes of the direct request. |
| `ScaleLoops.ServeEntries` | amper/src/dhmp_server.c:539-557 | The handler's loop over two buffers and memory computes the specified memory and reply. |
| `ScaleLoops.ServeBatch` | amper/src/dhmp_server.c:492-562 | ... and closes the reply with its valid byte. |
| `ScaleLoops.ServeOnIsServe` | amper/src/dhmp_server.c:539-557 | The loop with its reply so far agrees with the batch served from the front. |
| `ScaleLoops.Deliver` | amper/src/dhmp_work.c:434-447 | The client's loop over the reply fills memory as specified. |
| `BatchCodec.FrameReads` | amper/src/dhmp_task.c:63-68 | Type, size and data of a message are read back, whatever the receive buffer held behind it. |
| `BatchCodec.DecodeBody` | amper/src/dhmp_work.c:836-873 | Decoding an encoded batch gives back its addresses, sizes and data. |
| `BatchCodec.RequestLength` | amper/src/dhmp_work.c:842-846 | The encoded batch has the size the client allocates and announces. |
| `BatchCodec.RequestParts` | amper/src/dhmp_work.c:842-867 | Where the call's record, the batch, the direction and the entries lie in the request, whatever follows it. |
| `BatchCodec.PerformItems` | amper/src/dhmp_transport.c:2287-2305 | A batch of writes leaves memory as the blocks copied in order; a batch of reads answers the blocks in order. |
| `BatchCodec.HandleRequest` | amper/src/dhmp_transport.c:2261-2317 | The handler on an encoded request: the batch's outcome, and a response of exactly the size allocated from the first entry. |
| `BatchCodec.ResponseReads` | amper/src/dhmp_transport.c:2306-2330 | Where size, buffer list, work, direction, count and blocks lie in the response. |
| `BatchCodec.DeliverBlocks` | amper/src/dhmp_transport.c:2319-2330 | Consecutive blocks delivered to the caller's buffers are the server's blocks copied in order. |
| `BatchCodec.ResponseDelivers` | amper/src/dhmp_transport.c:2317-2340 | The response completes the call it answers and fills that call's buffers. |
| `BatchCodec.Exchange` | amper/src/dhmp_transport.c:2343-2400 | A batch end to end through both frames and any stale bytes: memory, buffers and the completed call are right. |
| `BatchLoops.BuildRequest` | amper/src/dhmp_work.c:842-867 | The encoding loop fills a buffer of the announced size with the encoded batch. |
| `BatchLoops.ServeItems` | amper/src/dhmp_transport.c:2287-2305 | The handler's loop performs the decoded items in order. |
| `BatchLoops.PerformOnIsPerform` | amper/src/dhmp_transport.c:2287-2305 | The loop with its answer so far agrees with the items performed from the front. |
| `BatchLoops.HandleMessage` | amper/src/dhmp_transport.c:2261-2317 | The whole handler returns the specified response in a fresh buffer. |
| `BatchLoops.DeliverAll` | amper/src/dhmp_transport.c:2323-2330 | The response handler's loop fills memory as specified. |
| `SendRegion.InRegionIff` | amper/src/dhmp_task.c:50-61 | A message lies in the region exactly when it is no longer than the region. |
| `SendRegion.WindowDisjoint` | amper/src/dhmp_task.c:50-61 | Consecutive messages whose total and any one (but the first) again exceed the region by at most one byte never overlap, across any wrap. |
| `SendRegion.WindowIsExact` | amper/src/dhmp_task.c:50-61 | Wherever earlier messages left the cursor, consecutive messages (each at least the 12-byte frame) never overlap exactly when no message but the first, added once more to the total, exceeds the region by more than one byte, or it is the last, without data, and the total fits. |
| `SendRegion.ReachedIff` | amper/src/dhmp_task.c:50-61 | The cursors messages leave behind are 0 and every offset from one frame to the end of the region. |
| `SendRegion.TotalAndLongest` | amper/src/dhmp_task.c:50-61 | Total plus the longest at most the region size (plus one) implies it. |
| `SendRegion.WindowIntact` | amper/src/dhmp_task.c:50-70 | Whatever was sent before, all messages of such a window are intact after the last is written. |
| `SendRegion.Region.SendTask` | amper/src/dhmp_task.c:38-70 | Placing, advancing, wrapping and copying a message is the specified step. |
| `ReceiveQueue.SlotsInTurn` | amper/src/dhmp_transport.c:577-601 | In every run the messages its sending steps send are handled in order, each once; the next completion is for slot (handled mod `k`) and holds the next of them; the sender's counter is (sent mod `k`), the slot the next message fills. |
| `ReceiveQueue.QueueIsRotation` | amper/src/dhmp_transport.c:1520-1569 | Filled and posted slots are always a rotation of all slots. |
| `ReceiveQueue.NextKeepsInv` | amper/src/dhmp_transport.c:1520-1569 | Sends, arrivals and completions keep the rotation, the placement of messages and the counter. |
| `ReceiveQueue.NeverStuck` | amper/src/dhmp_transport.c:577-601 | While a message is unhandled the receiver can act. |
| `ReceiveQueue.FlushInRegion` | amper/src/dhmp_work.c:893-893 | The flush address lies in the region, at the last byte of the slot the counter names, which is the slot just written only if there is one slot. |
| `ReceiveQueue.Connection.PostAllRecv` | amper/src/dhmp_transport.c:1558-1569 | The posting loop posts every slot once, in order. |
| `ReceiveQueue.Connection.PostSend` | amper/src/dhmp_transport.c:1612-1642 | A send is the send step, counter included. |
| `ReceiveQueue.Connection.OnReceive` | amper/src/dhmp_transport.c:588-601 | A completion returns the next message sent and posts its slot again. |
| `RegionIndex.TableRefinesMap` | amper/src/dhmp_work.c:93-258 | After any mallocs and frees the hash table answers exactly like a map from addresses to regions, the server's list holds the same regions, and the used size is what the mallocs added and the frees of live regions took; for every placement of addresses in the table. |
| `RegionIndex.EachOnceInItsBucket` | amper/src/dhmp_work.c:109-116 | Every live region is in the table once, in its own bucket, and nothing else is. |
| `RegionIndex.LookupIsLive` | amper/src/dhmp_work.c:191-213 | A lookup finds a region exactly when it is live, and then that region. |
| `RegionIndex.MallocKeeps` | amper/src/dhmp_transport.c:145-169 | A malloc keeps both sides in step and adds one region. |
| `RegionIndex.FreeKeeps` | amper/src/dhmp_work.c:215-258 | A free keeps both sides in step and removes exactly that region; an unknown address changes nothing. |
| `RegionIndex.SameRemoved` | amper/src/dhmp_transport.c:383-408 | The server's removal by key removes the region the client removed by address. |
| `RegionIndex.FreeUndoesMalloc` | amper/src/dhmp_transport.c:411-446 | Freeing what was just allocated restores both sides, order included. |
| `RegionIndex.Cluster.Search` | amper/src/dhmp_work.c:191-213 | The bucket search finds the first entry with the address, or none. |
| `RegionIndex.Cluster.MallocWork` | amper/src/dhmp_work.c:118-180 | Both head insertions and the accounting are the malloc step. |
| `RegionIndex.Cluster.FreeWork` | amper/src/dhmp_work.c:215-258 | Search, removal on both sides and accounting are the free step. |
| `WorkQueue.QueueRefinesMemory` | amper_beforeFaRM/src/dhmp_work.c:1051-1137 | In every run of any number of callers the operations its submitting steps ask for are handled in order, each once: a read brings, place by place, the data of the last earlier write that covers the place or else the initial region, an operation fails exactly on an unregistered address, and an idle worker means memory holds what was last written. |
| `WorkQueue.NextKeepsInv` | amper_beforeFaRM/src/dhmp_work.c:241-297 | Every step of callers, worker, adapter and completion handler keeps that. |
| `WorkQueue.SpinsNeverBlockIff` | amper_beforeFaRM/src/dhmp_transport.c:529-536 | The spins on the write flag never block, in any run, exactly when the completion handler clears the flag (or nothing is registered). |
| `WorkQueue.RunKeepsFlagsDown` | amper_beforeFaRM/src/dhmp_work.c:271-297 | With a handler that clears it, a flag is up only while its own write is under way. |
| `WorkQueue.BlockedForGood` | amper_beforeFaRM/src/dhmp_work.c:258-290 | A blocked worker stays blocked on the same operation in every run. |
| `WorkQueue.SecondOperationBlocks` | amper/src/dhmp_work.c:288-316 | Without the clearing, every write, followed by any operation on its region, leaves the worker blocked on that operation. |
| `WorkQueue.FlagStaysUp` | amper/src/dhmp_work.c:288-316 | A flag left up stays up in every run, and every later operation on its region that the worker takes blocks it. |
| `WorkQueue.QueueDrains` | amper_beforeFaRM/src/dhmp_work.c:1051-1137 | With the clearing, every step but a submission reduces what is owed and one can always be taken. |
| `WorkQueue.Client.SubmitWork` | amper_beforeFaRM/src/dhmp_client.c:205-217 | A caller's append is the submit step. |
| `WorkQueue.Client.WorkerTurn` | amper_beforeFaRM/src/dhmp_work.c:1051-1070 | Taking the first work, passing the spin and finishing are the worker's steps. |
| `WorkQueue.Client.Transfer` | amper_beforeFaRM/src/dhmp_transport.c:1584-1640 | The adapter moves exactly the bytes of the posted transfer. |
| `WorkQueue.Client.OnCompletion` | amper_beforeFaRM/src/dhmp_transport.c:529-540 | The handler clears the flag before it reports the transfer done. |
| `RfpTags.SafeRunsAreCorrect` | amper/src/dhmp_server.c:260-316 | If every request is safe when issued, the requests the issuing steps make are executed in order, reply n is accepted only after request n was executed, each byte a read brings and each byte of memory is that of the last executed write covering it or else the initial one, and the tags stay in phase. |
| `RfpTags.OneKindRunsAreCorrect` | amper/src/dhmp_work.c:1021-1105 | Runs of one kind of operation (or of empty operations), issued only after the valid byte was cleared, are safe, with the same promise byte by byte. |
| `RfpTags.ServesIffSafe` | amper/src/dhmp_server.c:260-316 | For every state reached safely and every request: in all that follows the issue results are those of executed requests in order and a waiting client can always proceed, exactly when the server had cleared the valid byte and the polled byte did not hold the expected tag. |
| `RfpTags.ServesIffHistoryAllows` | amper/src/dhmp_work.c:1021-1105 | The same condition, from the start and for every size, in what the caller knows: a write is fine unless it follows a read whose first byte is the next tag; a read exactly when an even number of writes lies between it and the read before; before any operation, or any read, the byte the buffer began with decides. |
| `RfpTags.AcceptsEarlyIff` | amper/src/dhmp_work.c:1071-1090 | Some run without a further request accepts a reply before its request is executed exactly when, at the issue, the polled byte already held the expected tag. |
| `RfpTags.IssuedInWindowIsLost` | amper/src/dhmp_server.c:303-316 | A request written between the tag and the clearing of the valid byte, however fresh, is lost: the server clears it, no step can ever be taken again. |
| `RfpTags.WindowIsReachable` | amper/src/dhmp_server.c:303-316 | From the start, for any two requests of one kind: a run in which the client accepts the first reply and the second request is lost. |
| `RfpTags.ReadWriteReadAcceptsEarly` | amper/src/dhmp_work.c:1065-1090 | A read after a read and a write is accepted before it is executed, for every size but zero and from every quiet state. |
| `RfpTags.NextKeepsInv` | amper/src/dhmp_server.c:260-316 | Every step, with safe issues, keeps tags, counts, reply and memory in step. |
| `RfpTags.NeverStuck` | amper/src/dhmp_server.c:294-316 | In a safe run an outstanding request can always proceed. |
| `RfpTags.Channel.IssueRequest` | amper/src/dhmp_work.c:1030-1067 | Writing the request is the issue step. |
| `RfpTags.Channel.HandleRequest` | amper/src/dhmp_server.c:260-292 | The handler performs the operation, fills the reply with size and data and sets the tag, as the two steps specify. |
| `RfpTags.Channel.Clear` | amper/src/dhmp_server.c:306-312 | Clearing the valid byte is the last of the server's three steps and keeps the invariant. |
| `RfpTags.Channel.TryAccept` | amper/src/dhmp_work.c:1084-1104 | A poll that finds the tag takes the data and toggles; any other changes nothing. |
| `RequestWindow.WindowSafety` | amper/src/dhmp_client.c:658-671 | In every run the counter plus the requests in flight is `n`, the counter stays within 0 and `n`, a credit can be taken exactly while fewer than `n` are in flight, every request taken is in flight or completed, once, and requests complete in the order in which they were queued. |
| `RequestWindow.WindowDrains` | amper/src/dhmp_client.c:658-671 | Every step but a take pays one owed step and while a request is in flight one can be taken, so all credits come back. |
| `RequestWindow.CreditSweepWaitsForAll` | amper/src/dhmp_client.c:299-329 | Whatever other callers do, when the sweep ends every request taken before it began is completed. |
| `RequestWindow.QuietSweepEndsFull` | amper/src/dhmp_client.c:320-326 | If no credit is taken meanwhile the sweep ends with all of them back. |
| `RequestWindow.SlotSweepWaitsForAll` | amper/src/dhmp_client.c:304-311 | Whatever other callers do, when the sweep over the slots ends every call acquired before it began was served and released. |
| `RequestWindow.QuietSlotSweepEndsEmpty` | amper/src/dhmp_client.c:304-311 | The calls outstanding at its end were acquired during it; with none, the ring is empty. |
| `RequestWindow.BusySweepMissesACall` | amper/src/dhmp_client.c:304-311 | With a call acquired meanwhile, in a ring of two slots or more, a sweep can end with a slot taken. |
| `RequestWindow.PassingSweepsEndAvailableIff` | amper/src/dhmp_client.c:304-311 | Whatever the callers do meanwhile, a sweep ends with all slots available exactly in a ring of one slot. |
| `RequestWindow.Client.constructor` | amper/src/dhmp_client.c:1210-1210 | The window starts with `n` credits. |
| `RequestWindow.Client.TryTake` | amper/src/dhmp_client.c:658-671 | One turn of the loop takes a credit unless there is none. |
| `RequestWindow.Client.OnResponse` | amper/src/dhmp_transport.c:2333-2337 | A response completes the oldest request and returns its credit. |
| `Murmur.OneBlockNeverCollides` | amper/src/murmur3_hash.c:71-129 | Keys of equal length that differ in one aligned block never have the same hash. |
| `Murmur.TailNeverCollides` | amper/src/murmur3_hash.c:99-129 | Nor do keys that differ only in their tail. |
| `Murmur.NearbyAddressesNeverCollide` | amper/src/dhmp_work.c:93-103 | Addresses that share one half have different hashes before the modulo. |
| `Murmur.FmixInjective` | amper/src/murmur3_hash.c:56-65 | The finaliser loses nothing. |
| `Murmur.MixInjective` | amper/src/murmur3_hash.c:90-92 | Mixing a block loses nothing. |
| `Murmur.RoundInjective` | amper/src/murmur3_hash.c:86-97 | A round is decided by state and block, each alone recoverable from the other. |
| `Murmur.DifferenceSurvives` | amper/src/murmur3_hash.c:86-97 | A difference in the state survives any number of equal blocks. |
| `Murmur.HashInClient` | amper/src/dhmp_work.c:93-103 | The bucket of an address lies in the table. |
| `Murmur.BucketOfAddress` | amper/src/dhmp_work.c:93-103 | It is the hash of the address, its low and its high word as the two blocks, modulo 251. |
| `Murmur.XorIsBitwise` | amper/src/murmur3_hash.c:56-129 | The exclusive or used throughout is that of machine bytes. |
| `Murmur.HelloHash` | amper/src/murmur3_hash.c:71-129 | A known answer: the hash of "hello" is 0x248bfa47, through a block, a tail byte, the length and the finaliser. |
| `Murmur.Fmix32` | amper/src/murmur3_hash.c:56-65 | The step-by-step finaliser computes it. |
| `Murmur.MixBlock` | amper/src/murmur3_hash.c:86-97 | The loop body computes a round. |
| `Murmur.TailBits` | amper/src/murmur3_hash.c:102-113 | The fall-through cases gather the tail bytes. |
| `Murmur.MixTail` | amper/src/murmur3_hash.c:102-118 | The tail is mixed into the state, or leaves it for an empty tail. |
| `Murmur.MurmurHash3` | amper/src/murmur3_hash.c:71-129 | Loop, tail and finaliser compute the hash. |
| `Jobs.RunKeepsValid` | rdma_module/kernel/sys.c:1006-1189 | In every run of setpgid, setsid, fork, exec, thread creation and exit all members of a group are in one session, a process whose pid names a group is in that group's session, and a session leader has pid = pgid = sid. |
| `Jobs.RunFromBootIsValid` | rdma_module/kernel/sys.c:1006-1189 | So they hold in every state the first process and its descendants bring about. |
| `Jobs.StepKeepsValid` | rdma_module/kernel/sys.c:1006-1189 | Each of those steps keeps it. |
| `Jobs.SetPgidSucceedsIff` | rdma_module/kernel/sys.c:1006-1075 | setpgid succeeds exactly when IEEE Std 1003.1-2017, setpgid(), allows it and the hook agrees. |
| `Jobs.SetPgidErrorIs` | rdma_module/kernel/sys.c:1019-1070 | For each error of the call, exactly when it is the one answered. |
| `Jobs.EitherMayStartTheJob` | rdma_module/kernel/sys.c:1006-1075 | After fork, parent and child may each put the child in its own group, with the same effect; after the child's exec the parent is refused with EACCES, the child not. |
| `Jobs.FirstMemberSuffices` | rdma_module/kernel/sys.c:1050-1060 | Checking one member of the group is enough: any member gives the same result. |
| `Jobs.SetPgidMovesOneProcess` | rdma_module/kernel/sys.c:1006-1075 | A success moves one process, between groups that lie in the caller's session, and changes nothing else; a failure changes nothing. |
| `Jobs.SetSidStartsASessionAlone` | rdma_module/kernel/sys.c:1158-1189 | setsid succeeds exactly for a caller that leads no session and whose pid names no group, which then leads a new session and group alone; otherwise it answers EPERM and changes nothing. |
| `Jobs.ForkThenSetSidSucceeds` | rdma_module/kernel/sys.c:1158-1189 | A forked child can always call setsid. |
| `Jobs.LeadershipLasts` | rdma_module/kernel/sys.c:1006-1189 | A session leader stays one, with its ids, as long as it lives. |
| `Jobs.ProcessTable.SetPgid` | rdma_module/kernel/sys.c:1006-1075 | The call on the table: error order and update as specified. |
| `Jobs.ProcessTable.SetSid` | rdma_module/kernel/sys.c:1147-1189 | The call on the table, with set_special_pids' guards. |
| `Credentials.RunGainsNoId` | rdma_module/kernel/sys.c:493-551 | In every run whose capability checks answer no, the set of real, effective and saved id never gains an element and the filesystem id stays among the first four. |
| `Credentials.SetRePromises` | rdma_module/kernel/sys.c:493-551 | setreuid: exactly when each error is answered, and where each id goes; the saved id becomes the new effective one exactly when the real id is given, or the effective one is and is not the old real id. |
| `Credentials.SetOnePromises` | rdma_module/kernel/sys.c:569-609 | The same for setuid: all four ids for a capable caller, effective and filesystem id for another. |
| `Credentials.SetResPromises` | rdma_module/kernel/sys.c:621-684 | The same for setresuid: every id given moves to its own place. |
| `Credentials.SetFsPromises` | rdma_module/kernel/sys.c:797-831 | setfsuid moves the filesystem id, and no other, exactly when it is permitted. |
| `Credentials.SetEffectiveForgetsSaved` | rdma_module/kernel/sys.c:537-539 | After setreuid(-1, e) to an id other than the real one no unprivileged run brings back any id but the real one and e. |
| `Credentials.SetReToOneIdIsForever` | rdma_module/kernel/sys.c:493-551 | After setreuid(u, u) without capability all four ids are u forever. |
| `Credentials.PrivilegedSetOneIsForever` | rdma_module/kernel/sys.c:569-609 | So they are after a privileged setuid(u). |
| `Credentials.EffectiveIdsInReach` | rdma_module/kernel/sys.c:621-684 | Exactly the real, effective and saved id can be made effective without capability, by any run. |
| `Credentials.SavedIdDecidesRegain` | rdma_module/kernel/sys.c:493-551 | After dropping the effective id it can be regained exactly if it was the real or the saved one. |
| `Credentials.SwapTwice` | rdma_module/kernel/sys.c:493-551 | Real and effective id can be swapped and swapped back; the state is restored exactly if saved and filesystem id equalled the effective one. |
| `Credentials.FilesystemIdFollows` | rdma_module/kernel/sys.c:493-684 | Without setfsuid the filesystem id follows the effective one. |
| `Credentials.ErrorsChangeNothing` | rdma_module/kernel/sys.c:493-684 | A run of refused calls changes no id. |
| `Credentials.RunStaysKnown` | rdma_module/kernel/sys.c:493-831 | Every id after any run, privileged or not, is one it began with or one the namespace maps; the invalid id never enters. |
| `Credentials.Task.SetReUid` | rdma_module/kernel/sys.c:493-551 | The call, with copy and commit, is the specified transition, the move of the saved id included. |
| `Credentials.Task.SetUid` | rdma_module/kernel/sys.c:569-609 | The same for setuid. |
| `Credentials.Task.SetResUid` | rdma_module/kernel/sys.c:621-684 | The same for setresuid. |
| `Credentials.Task.SetFsUid` | rdma_module/kernel/sys.c:797-831 | The same for setfsuid, which returns the old id. |
| `Credentials.Task.SetReGid` | rdma_module/kernel/sys.c:350-400 | The gid call is the uid transition without user charge and hook, the move of the saved id included. |
| `Credentials.Task.SetGid` | rdma_module/kernel/sys.c:412-442 | The same for setgid. |
| `Credentials.Task.SetResGid` | rdma_module/kernel/sys.c:713-763 | The same for setresgid. |
| `Credentials.Task.SetFsGid` | rdma_module/kernel/sys.c:841-874 | The same for setfsgid. |
| `Limits.RunKeepsOrdered` | rdma_module/kernel/sys.c:1527-1575 | In every run soft is at most hard for each resource, except that the CPU limit may hold (1, 0). |
| `Limits.ZeroCpuBreaksOrder` | rdma_module/kernel/sys.c:1555-1564 | Setting the CPU limit to (0, 0) stores (1, 0). |
| `Limits.OrderKeptUnlessZeroCpu` | rdma_module/kernel/sys.c:1527-1575 | A successful set leaves soft at most hard exactly when it is not that call. |
| `Limits.HardLimitsOnlyFall` | rdma_module/kernel/sys.c:1546-1554 | Runs without the capability never raise a hard limit. |
| `Limits.SetSucceedsIff` | rdma_module/kernel/sys.c:1533-1554 | For each error, exactly when it is answered; a set succeeds exactly when it is in order, within the file bound, for a live process, not above the hard limit unless the caller is capable, and the hook agrees; it stores the limit as given, a zero CPU limit as one, and changes no other. |
| `Limits.ReachableIff` | rdma_module/kernel/sys.c:1527-1575 | Runs without the capability can bring about exactly the present limit and those in order under its hard limit, a soft CPU limit of zero stored as one. |
| `Limits.OpenFilesStayBounded` | rdma_module/kernel/sys.c:1537-1541 | No run lifts the open-file limit above the system bound. |
| `Limits.CompatRoundTrip` | rdma_module/kernel/sys.c:1397-1440 | A 32-bit process reads back what it set, except a zero CPU limit, and its infinity is the full one. |
| `Limits.Signal.DoPrlimit` | rdma_module/kernel/sys.c:1527-1575 | The call: error order, the fix-up in the caller's record, the old value, the new table. |
| `Sysinfo.RescaleKeepsBytes` | rdma_module/kernel/sys.c:2540-2573 | Rescaling keeps every field times the unit exactly when it gave up for overflow, the unit is a power of two, or there is no memory at all. |
| `Sysinfo.RescalesIff` | rdma_module/kernel/sys.c:2540-2573 | The counts are multiplied by the highest power of two within the unit, and the unit becomes 1, exactly when ram and swap together then still fit in 64 bits; otherwise nothing changes. |
| `Sysinfo.Report.ShiftTotal` | rdma_module/kernel/sys.c:2543-2560 | The shift-and-compare loop ends and detects overflow of 64 bits exactly. |
| `Sysinfo.Report.DoSysinfo` | rdma_module/kernel/sys.c:2540-2573 | The whole rescaling is as specified. |
| `Sysinfo.RescaledParts` | rdma_module/kernel/sys.c:2562-2573 | No field outgrows its total. |
| `Sysinfo.DoublingsReach` | rdma_module/kernel/sys.c:2617-2622 | Doubling the unit reaches the page size, and not twice that. |
| `Sysinfo.CompatUnit` | rdma_module/kernel/sys.c:2612-2630 | The 32-bit report changes the unit exactly when ram or swap needs more than 32 bits and the unit is below a page, and then to the first doubling that is not. |
| `Sysinfo.CompatReportsWholeUnits` | rdma_module/kernel/sys.c:2614-2630 | The 32-bit report counts whole new units of the true bytes, modulo 2^32. |
| `Sysinfo.CompatFitsSixteenTebibytes` | rdma_module/kernel/sys.c:2614-2630 | Below sixteen tebibytes each count is exact to less than one unit. |
| `Sysinfo.Report.UnitUpToPage` | rdma_module/kernel/sys.c:2617-2622 | The doubling loop. |
| `Sysinfo.Report.CompatSysinfo` | rdma_module/kernel/sys.c:2605-2640 | The whole compat rescaling is as specified. |

## Left out

- Verbs, connection management, completion channels, NUMA placement, cache flushes, logging, timers and configuration: I/O; an RDMA write or read is a copy between buffers.
- Hardware memory ordering and torn RDMA reads.
- L5, Herd, pRDMA, Octopus, Tailwind, Clover and models A to D: stubs, commented out, or single-copy handlers that would add only easy members; L5 mixed runs have no clean property.
- The malloc error reply and requests above SINGLE_AREA_SIZE: the waiter is never woken in the one, the reply region is unset in the other.
- Receive postings are 40 bytes longer than their slot; messages are taken to fit one slot.
- The forms of FaRM without WFLUSH and of DaRPC with SFLUSH or RFLUSH, where the server does not parse the batch.
- The counter that decides when scaleRPC switches: every call may take either form. One call is made at a time, on one buffer, and the caller's memory rests while it waits.
- ScaleRuns.NextKeepsInv: the steps are on values; the loops behind them are the methods of `ScaleLoops`.
- Loops of several memcpy calls are split into small methods, one per entry; addresses are offsets into the arrays.
- RegionIndex.TableRefinesMap: stated for every placement of addresses; that HashInClient is one is its own contract, not repeated there.
- RegionIndex.Cluster.MallocWork: the fresh address and key are the allocator's promise, a precondition.
- RfpTags.OneKindRunsAreCorrect: needs that the polled byte does not hold tag 1 at the start, which `nvm_malloc` (amper/src/dhmp_transport.c:45-55, used at amper/src/dhmp_server.c:806) provides by zeroing the buffer.
- WorkQueue.QueueRefinesMemory: read and write counters are not modelled, nor transfers outside their region, which the adapter rejects and no handler reports.
- Credentials.Task.SetFsUid: returns the kernel id; mapping it back into the user namespace is not modelled.
- Jobs.ProcessTable.SetSid: whether the pid names a group is a parameter, as the pid's task list answers it; terminals and autogroups are not modelled.
- Limits.Signal.DoPrlimit: locking and the CPU timer update are not modelled.
- uname, host names, times, rusage, prctl, priorities and user copies in sys.c: easy members or plumbing.
