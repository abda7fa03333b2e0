# Verified model of FaSST

FaSST runs distributed transactions over an RPC layer on unreliable datagrams, and ships modified
Mellanox drivers. This project models its four cores and proves what they are for. It consists of
Dafny files only: `dafny verify dfyconfig.toml` checks everything.

- **Transactions.** `Store` is the bucket-locked hash table and its request handler. `Protocol` is a
  step machine: many coordinators run transactions, and each request of each of them is served in one
  step, in any order. `History` orders the transactions: a transaction gets its place just before its
  first validation read. `Invariant`, `StepProofs` and `CommitProofs` carry the invariant through every
  step. `Serializability`, `Replication`, `Records`, `Validation` and `Stress` hold the results about
  whole runs.
  `Datastore` and `Coordinator` are the imperative code of the server and of `Tx`, proved against the
  functions the step machine uses.
- **RPC.** `Messages` is the byte format. `Batches` coalesces requests by machine; `Polling` is the
  mutable batch. `Matching` is a cluster in which messages arrive in any order. `RunRing` is the poll
  loop, and `PollMatch` joins it to the cluster. `RecvBound` counts receive buffers over the cluster.
  `Signalling` counts send completions; `ResponseBuffers` says when a response buffer is free again.
- **Lock server.** `Lockserver` has the lock table, the handler, and a machine in which the steps of
  several requests interleave lock by lock.
- **Placement.** `Mappings` has replica placement and packet sizes.
- **Drivers.** `CompletionQueue` (mlx4 cleaning and resizing), `Decompression` (mlx5), `FastRecv`,
  `InlineData`, `Bitmap`, `Srq`. `Modular` has facts about ring indices.

What is assumed: packets may be reordered, not lost or duplicated; one table operation is atomic; keys
are distinct within a transaction; `commit` is called only after `do_read` has covered both sets, and
`abort` only after it has covered the write set; there is a data machine and a worker per machine,
which the constructor of `Mappings` does not check.

Where the code falls short of a property one would expect, the model follows the code:

- A read by the lock holder that finds its key absent answers "not found" and leaves the version field
  as it was (`mica2/src/mica/table/fixedtable_impl/get.h:67-70`). `Serve` takes that stale field as the
  argument `junk`. Serializability holds for every value of it. A transaction can abort though nothing
  it read has changed (`NeedlessAbort`); `RereadOutcome` says exactly when a re-read passes. If no key
  written shares the bucket of a key read as absent, a transaction commits exactly if no bucket it
  read from had moved at its re-read (`CommitsIfUnmoved`).
- A lock request that fails because the key is missing, or exists, still moves the version of a bucket
  that was free (`mica2/src/mica/table/fixedtable_impl/lock_bkt_and_get.h:30-34`). It leaves every lock
  as it was exactly if the bucket was already held (`FailedLockMovesFree`).
- A full completion queue keeps its last entry through a clean (`CleanLeaves`: exactly when).
- A response buffer can be taken again before its SEND is known to have completed. In every run the
  next buffer is free if and only if the other queues post at most seven requests for each postlist
  of one queue: `(num_qps - 1) * postlist <= 7` (`BufferFreeExactly`).
- The fast RECV path is right exactly when the queue has as many slots as the RPC layer has receive
  requests (`FastRightExactly`).
- The fast inline encoder writes a header for an empty message, where the general one writes nothing;
  they agree exactly on non-empty ones (`EncodeFast`).
- With a lock server the constructor of `Mappings` accepts configurations with two replicas of a key on
  one machine (`ReplicasDistinct` says when, `LockServerOverlap` is one).
- `max_pkt_size`, given the number of updated keys as its comment says, can be too small for the reads.
  All messages of every placement fit exactly if the reads and locks of one machine do
  (`PacketSizeExactly`; `FitsExactly` for any packet size). Given the keys read and written, it always
  suffices (`TransactionFits`).

## Model

| member | source | states |
|---|---|---|
| `Serializability.Serializable` | tx/tx_commit.h:61-147 | In every interleaving, each committed transaction saw, for every key it read or locked, exactly what the last earlier committed writer left, absence included. Order: the moment before the first validation read, or the read itself for a single-key commit. |
| `Serializability.StrictOrder` | tx/tx_commit.h:225-323 | The serial order respects real time: a transaction that began after another was decided comes after it. |
| `Serializability.RunKeeps` | tx/tx_execute.h:29-188 | The invariant over locks, recorded versions, history and store holds in every state of every run. |
| `Serializability.StepKeeps` | tx/tx_commit.h:5-323 | Every step of every coordinator and server keeps that invariant. |
| `Records.CommittedIsRecorded` | tx/tx_commit.h:95-147 | A transaction that reports success, or can no longer fail, has a committed history entry made after it began with exactly its reads and writes, and those reads are the serial ones. |
| `Records.ValidationRereads` | tx/tx_commit.h:263-318 | A read-set buffer that passed validation holds again the value of the execute phase. |
| `Replication.ReplicasAgree` | tx/tx_commit.h:15-50 | In every reachable state a key whose bucket is unlocked at the primary has the same value, or is absent, at every backup, for one-batch and per-replica updates. |
| `Replication.LockDiscipline` | tx/tx_commit.h:150-221 | A caller holds a bucket exactly as often as its transaction has unreleased locked items, at most 16 times, and not at all after commit or abort; no server assertion ever fails. |
| `Replication.LockedItemFindsKey` | datastore/fixedtable/ds_fixedtable_handler.h:59-163 | Every locked item holds its bucket and still finds its key as it was when locked: present for update and delete, absent for insert. |
| `Replication.QuiescentState` | tx/tx_commit.h:105-147 | When no transaction runs, nothing is locked, and primary and backups hold what the committed transactions in order leave. |
| `Replication.StepReplicas` | tx/tx_commit.h:110-137 | Every step keeps, under each lock, old value or acknowledged new value at each backup, and agreement elsewhere. |
| `History.DecideWrites` | tx/tx_commit.h:263-318 | Committing an entry that no later committed entry overwrites makes exactly its writes the latest ones. |
| `CommitProofs.DecideHistory` | tx/tx_commit.h:95-147 | After a successful validation the history ends, key by key, with the transaction's writes and is otherwise unchanged. |
| `CommitProofs.ValidatedSettled` | tx/tx_commit.h:263-318 | If every re-read returns the recorded version, all the transaction saw is what the history holds at its stamp, finally: no earlier transaction that is still undecided writes any of it. |
| `Validation.RereadOutcome` | mica2/src/mica/table/fixedtable_impl/get.h:8-85 | A re-read passes exactly if the bucket has not moved; only for a key read as absent under the caller's own lock is it instead whether the stale field holds the recorded version. |
| `Validation.PassesIfUnmoved` | tx/tx_commit.h:263-318 | In every run, a re-read item of a transaction that writes no bucket of its absent keys passes exactly if its bucket had not moved at the re-read. |
| `Validation.CommitsIfUnmoved` | tx/tx_commit.h:263-323 | In every run, such a transaction passes validation exactly if no bucket it read from had moved at its re-read. |
| `Validation.NeedlessAbort` | mica2/src/mica/table/fixedtable_impl/get.h:67-70 | A run from an empty store in which a key read as absent is still absent, its bucket unmoved, and validation fails. |
| `Validation.FailedLockMovesFree` | mica2/src/mica/table/fixedtable_impl/lock_bkt_and_get.h:10-43 | A failed lock request leaves all locks and versions as they were exactly if the bucket was already held; on a free bucket the version moves by one. |
| `Stress.GetSeesWholeGroup` | app/stress/worker.cc:122-181 | A committed `get_N` sees all N keys of its group with equal values or none of them, in every run of `get_N`, `del_N` and `ins_N`, for every N and table size. |
| `Datastore.FixedTable.LockBucket` | mica2/src/mica/table/fixedtable_impl/lock.h:25-58 | Locking refines the abstract lock: refused exactly when another caller holds it, re-entrant for the holder, odd timestamp while held. |
| `Datastore.FixedTable.UnlockBucket` | mica2/src/mica/table/fixedtable_impl/lock.h:60-85 | The last release frees the bucket and moves the version; earlier ones only lower the count. |
| `Datastore.FixedTable.Get` | mica2/src/mica/table/fixedtable_impl/get.h:8-85 | The response the abstract table gives, for an unlocked bucket, the holder, and others. |
| `Datastore.FixedTable.LockAnd` | mica2/src/mica/table/fixedtable_impl/lock_bkt_and_get.h:10-43 | Lock-then-look requests leave table and response as the abstract table, with the lock dropped again on failure. |
| `Datastore.FixedTable.Handle` | datastore/fixedtable/ds_fixedtable_handler.h:6-170 | The whole request handler refines the server step of the protocol, with the response lengths the client relies on. |
| `Datastore.FixedTable.HandleBackup` | mica2/src/mica/table/fixedtable_impl/del.h:8-42 | At a backup updates go in without a lock, as the protocol's backup step says; deleting a missing key is the only failure. |
| `Coordinator.Transaction.Start` | tx/tx.h:114-138 | A new transaction is empty, in progress and not locked at the lock server. |
| `Coordinator.Transaction.AddToReadSet` | tx/tx.h:140-173 | A key is appended to the read set with its primary and backup machines, the primary is returned, and nothing else changes. |
| `Coordinator.Transaction.AddToWriteSet` | tx/tx.h:175-206 | A key is appended to the write set, not locked, with its primary and backup machines; the primary is returned, and nothing else changes. |
| `Coordinator.Transaction.ReadRequests` | tx/tx_execute.h:32-74 | One request per new item, reads first, then locks of the right kind, in set order. |
| `Coordinator.Transaction.FinishReads` | tx/tx_execute.h:81-122 | Each response goes to the item that asked; the transaction must abort exactly if a read found a lock. |
| `Coordinator.Transaction.FinishLocks` | tx/tx_execute.h:124-188 | Lock flags and fetched objects are those of each item's own response; must abort exactly if some lock failed. |
| `Coordinator.Transaction.Validate` | tx/tx_commit.h:263-323 | Succeeds exactly if every key's existence and version are confirmed. |
| `Coordinator.Transaction.UpdateRequests` | tx/tx_commit.h:15-50 | The requests of an update batch: each item to each replica, put or delete by mode. |
| `Coordinator.Transaction.UnlockRequests` | tx/tx_commit.h:178-199 | Exactly one unlock per item whose lock was taken. |
| `Coordinator.UpdateBatchCovers` | tx/tx_commit.h:15-50 | Every item is sent to every replica of the batch and to no other. |
| `Coordinator.ReplicaBatches` | tx/tx_commit.h:105-137 | The batches are the backups in order, all in one batch exactly if their requests fit one and else one by one, then the primary alone; none exceeds 16 requests; they are those of the phases the protocol goes through. |
| `Messages.EntryFound` | rpc/rpc_defs.h:109-118 | Walking a coalesced message by its headers finds every entry, complete, where it was put. |
| `Messages.Parse` | rpc/rpc_datapath.cc:326-358 | Reading a coalesced message gives back exactly the entries written. |
| `Messages.Serve` | rpc/rpc_datapath.cc:363-415 | The response message is the encoding of the handlers' results under the requests' own sequence numbers; each handler sees its own request. |
| `Batches.AddKeepsWf` | rpc/rpc.h:132-208 | Coalescing keeps one message per machine, sequence numbers and places in one-to-one correspondence, and message sizes adding up to the batch. |
| `Batches.TotalComplete` | rpc/rpc_datapath.cc:297-307 | The response count reaches the number of requests exactly when every machine has answered. |
| `Batches.FillEffect` | rpc/rpc_datapath.cc:345-356 | A response lands in the slots of its own sequence numbers and touches no other. |
| `Polling.ReqBatch.constructor` | rpc/rpc.cc:231-252 | A fresh batch is empty and its machine index says so. |
| `Polling.ReqBatch.ChooseCmsg` | rpc/rpc.h:159-183 | The index finds the machine's message, or a fresh empty one is started and indexed. |
| `Polling.ReqBatch.StartNewReq` | rpc/rpc.h:132-208 | The mutable batch with its index does what appending to the coalesced batch means. |
| `Polling.ReqBatch.Clear` | rpc/rpc_defs.h:197-215 | Resetting only the used index entries resets the whole index; the batch is empty. |
| `Matching.ResponsesMatch` | rpc/rpc_datapath.cc:266-441 | In every run, for any arrival order and coalescing, a runnable coroutine has in each slot the answer of that request's own handler call, and was woken exactly once; a waiting one lacks some answer. |
| `Matching.HandledOnce` | rpc/rpc_datapath.cc:363-415 | No handler is called twice for one request, and what it answered never changes. |
| `Matching.DeliverCoro` | rpc/rpc_datapath.cc:293-307 | A response makes the coroutine runnable exactly when it is the last one outstanding. |
| `Matching.StepKeeps` | rpc/rpc_datapath.cc:26-84 | Every send, serve, delivery and clear keeps the matching invariant, one message per coroutine and machine in flight. |
| `RunRing.Master.PollComps` | rpc/rpc_datapath.cc:266-441 | The loop leaves `next_coro` linking the master to exactly the coroutines completed in this poll, in order and without duplicates, and back; the responses go out in request order; consumed RECVs are re-posted all at once when they reach the slack. |
| `RunRing.CompletedOnce` | rpc/rpc_datapath.cc:441-464 | No coroutine is listed twice in one poll, and all listed have all responses. |
| `RunRing.CompletedExactly` | rpc/rpc_datapath.cc:297-307 | A waiting coroutine that gets no surplus response is listed exactly if it now has all responses. |
| `PollMatch.PollLinksWoken` | rpc/rpc_datapath.cc:266-441 | In every reachable cluster, a poll of any messages that have arrived equals that many single deliveries and served requests, and links exactly the coroutines that were waiting and became runnable. |
| `RunRing.RingVisits` | rpc/rpc_datapath.cc:441-464 | Following `next_coro` from the master visits each listed coroutine once and returns to the master. |
| `RecvBound.RecvAvailable` | rpc/rpc.cc:183-188 | In every reachable state of an accepted cluster, messages on their way to a machine plus RECVs not re-posted stay below the queue depth: no arriving message finds the queue empty. |
| `RecvBound.DemandBound` | rpc/rpc.cc:336-346 | Requests at a machine, polled or not, and responses to it never exceed `required_recvs`. |
| `RecvBound.RunKeeps` | rpc/rpc_datapath.cc:418-439 | Polling, lazy re-posting and answering in that order keep the bound on consumed RECVs in every run. |
| `Signalling.SignallingSafe` | rpc/rpc.h:347-361 | In every run a completion waited for belongs to a signalled request already posted, and fewer requests than the send queue holds are unretired on each queue. |
| `ResponseBuffers.BufferFree` | rpc/rpc_datapath.cc:132-145 | If the other queues post at most seven requests per postlist, a non-inline response buffer is in every run taken again only after its SEND has completed. |
| `ResponseBuffers.BufferTaken` | rpc/rpc_datapath.cc:150-168 | For every other configuration, a run in which that fails. |
| `ResponseBuffers.BufferFreeExactly` | rpc/rpc.cc:146-147 | The next response buffer is free in every run if and only if `(num_qps - 1) * postlist <= 7`. |
| `Signalling.SendSide.AssembleOne` | rpc/rpc.h:347-361 | `set_flags` signals the first request of each window and waits only for one that is posted; the buffer index follows the large responses. |
| `Signalling.SendSide.PostAll` | rpc/rpc_datapath.cc:65-83 | Handing over the postlist posts all assembled requests and moves to the next queue. |
| `Signalling.SendSide.SendBatch` | rpc/rpc_datapath.cc:25-87 | The send loops are runs of the machine the safety results are about, one request per message, nothing left unposted. |
| `Lockserver.RunsAreSafe` | lockserver/lockserver.h:113-273 | In every interleaving the counter is the number of holds, an exclusive hold excludes every other requester, and a release finds the lock held by the releaser in the right mode. |
| `Lockserver.RefusalHasCause` | tx/tx_lockserver.h:46-60 | In every interleaving a refused lock is held by some other requester: re-entry through a hash collision is never refused. |
| `Lockserver.AnsweredLeavesOthers` | lockserver/lockserver.h:303-333 | In every interleaving, when a refused or an unlock request has been answered, each lock is what the other requesters' holds make it: their number, exclusive exactly if one of them is, and then theirs. |
| `Lockserver.LockTable.LockOne` | lockserver/lockserver.h:113-212 | One lock attempt: granted exactly in the cases listed, table otherwise unchanged. |
| `Lockserver.LockTable.UnlockOne` | lockserver/lockserver.h:214-273 | One release lowers the counter and unlocks at zero. |
| `Lockserver.LockTable.LockAll` | lockserver/lockserver.h:300-322 | All or nothing: succeeds exactly if the locks can be taken in turn; otherwise every lock is as before. |
| `Lockserver.LockTable.Rollback` | lockserver/lockserver.h:306-312 | Releasing in reverse order restores every lock a request touched. |
| `Lockserver.LockTable.UnlockAll` | lockserver/lockserver.h:323-333 | An unlock request undoes the lock request it belongs to. |
| `Lockserver.ReleaseUndoes` | lockserver/lockserver.h:214-273 | Releasing what was just granted puts the lock back, in each mode. |
| `Lockserver.BuildRequest` | tx/tx_lockserver.h:42-60 | The request has the write set, exclusively, before the read set, each at its lock. |
| `Mappings.ReplicasDistinct` | mappings/mappings.h:77-91 | A key's replicas are distinct data machines if and only if there are no more replicas than data machines. |
| `Mappings.BackupsDistinct` | mappings/mappings.h:77-91 | The backups of a key are always distinct data machines. |
| `Mappings.LockServerOverlap` | mappings/mappings.h:44-61 | A configuration the constructor accepts with primary and backup on one machine. |
| `Mappings.OnePopulator` | mappings/mappings.h:103-128 | Exactly one worker populates each replica, on that replica's machine, and none populates two replicas of a key. |
| `Mappings.FitsExactly` | tx/tx.h:250-275 | The coalesced messages of every placement of r reads and w writes fit a packet size if and only if the reads and locks of one machine, its updates and, with backups, its log record do. |
| `Mappings.PacketSizeExactly` | tx/tx.h:245-275 | With `max_pkt_size` for at least the updated keys, they fit if and only if the reads and locks do. |
| `Mappings.TransactionFits` | tx/tx.h:250-275 | With `max_pkt_size` for the keys read and written, they fit. |
| `Mappings.UpdateBound` | tx/tx_commit.h:110-130 | However the replicas of different keys overlap, a machine gets at most one update per key and batch. |
| `Mappings.LogBound` | tx/tx_logger.h:12-66 | Each log replica gets one record, of 24 bytes and the value per key. |
| `Mappings.BatchesWithinLimit` | tx/tx_commit.h:110-130 | No update batch of a commit exceeds 16 requests. |
| `CompletionQueue.Cq.FindProducer` | drivers/libmlx4-1.0.6mlnx1/src/cq.c:619-628 | The first index not owned by software, searched up to one short of a full ring. |
| `CompletionQueue.Cq.Clean` | drivers/libmlx4-1.0.6mlnx1/src/cq.c:609-665 | In place: the old software-owned entries without the QP's, in order, before the same producer, every slot keeping its ownership bit and the rest of the ring untouched. |
| `CompletionQueue.CleanLeaves` | drivers/libmlx4-1.0.6mlnx1/src/cq.c:609-665 | Exactly the remaining entries are pollable afterwards; an entry of the QP is left if and only if the ring was full and its last entry was the QP's. |
| `CompletionQueue.Cq.Outstanding` | drivers/libmlx4-1.0.6mlnx1/src/cq.c:674-682 | The search ends and counts the software-owned entries, at most the ring size. |
| `CompletionQueue.LapFlips` | drivers/libmlx4-1.0.6mlnx1/src/cq.c:154-161 | An entry owned by software at an index is not at the same slot one lap later. |
| `CompletionQueue.Cq.Resize` | drivers/libmlx4-1.0.6mlnx1/src/cq.c:684-705 | The entries before the RESIZE marker move, in order, to software-owned positions of the new ring one index later, for any two sizes with room; with less room the newest survive; other slots are untouched. |
| `Decompression.Cq5.CopyCqes` | drivers/libmlx5-1.0.2mlnx1/src/cq.c:552-594 | A block of entries becomes the title with each mini entry's fields, also when the title itself is overwritten first. |
| `Decompression.Cq5.Decompress` | drivers/libmlx5-1.0.2mlnx1/src/cq.c:614-640 | For any count up to the ring size, each index gets the title with its own mini entry, running 16-bit counter and ownership bit, though title and mini blocks are overwritten on the way; nothing else changes. |
| `Decompression.TitleSurvives` | drivers/libmlx5-1.0.2mlnx1/src/cq.c:562-582 | Expanding from the overwritten title gives the same entries as from the original. |
| `Decompression.ExpandedIsPollable` | drivers/libmlx5-1.0.2mlnx1/src/cq.c:221-235 | Every entry of an expanded session can be polled at its own index exactly if the title's opcode is valid, and none is compressed any more. |
| `FastRecv.RecvQueue.PostRecv` | drivers/libmlx4-1.0.6mlnx1/src/qp.c:1496-1558 | The requests before the first one that does not fit are posted in order, with their inline-receive buffers; the status tells why it did not fit; head and doorbell follow; overflow is ignored if the queue is created so. |
| `FastRecv.RecvQueue.PostWhole` | drivers/libmlx4-1.0.6mlnx1/src/qp.c:1496-1558 | A list of acceptable requests is taken whole exactly if there is room for all or overflow is ignored. |
| `FastRecv.RecvQueue.FastPostRecv` | drivers/libmlx4-1.0.6mlnx1/src/qp.c:1461-1474 | Only head and doorbell move. |
| `FastRecv.Worker.constructor` | rpc/rpc.cc:294-317 | The requests are linked in a circle. |
| `FastRecv.Worker.PostRecvs` | rpc/rpc.h:291-322 | Cutting the circle hands the driver exactly the next n requests in order and leaves the circle whole; it fails exactly if the queue has no room for them, and otherwise is the ordinary step of the refinement. |
| `FastRecv.Worker.PostRecvsFast` | rpc/rpc.h:324-341 | The fast step of the refinement; the circle is untouched. |
| `FastRecv.RecvQueue.Complete` | drivers/libmlx4-1.0.6mlnx1/src/cq.c:318-323 | A completion returns the id of the oldest posted descriptor. |
| `FastRecv.NextHead` | rpc/rpc.h:305-321 | The wrap-around arithmetic of `post_recvs` is addition modulo the depth. |
| `FastRecv.FastRefinesSlow` | rpc/rpc.h:325-341 | After one full fill, every schedule of posts and polls leaves the same descriptors, ids, head and doorbell on both paths, and poll i returns buffer i mod depth. |
| `FastRecv.FastNeedsEqualDepth` | rpc/rpc.cc:294-317 | With more slots than requests the paths differ after one poll and one post. |
| `FastRecv.FastRightExactly` | rpc/rpc.h:325-341 | Whatever the slots held before and in every schedule, both paths leave the same queue if and only if the queue has as many slots as there are requests. |
| `InlineData.Encode` | drivers/libmlx4-1.0.6mlnx1/src/qp.c:620-687 | Any scatter-gather list within the limit is written as the image of its concatenation, and nothing else is written; beyond the limit it fails. The size is in 16-byte units. |
| `InlineData.EncodeFast` | drivers/libmlx4-1.0.6mlnx1/src/qp.c:693-751 | For one entry the same bytes and size as the general encoder exactly if it is not empty; an empty one gets a header. |
| `InlineData.GatherImage` | drivers/libmlx4-1.0.6mlnx1/src/qp.c:620-687 | The payloads of the segments concatenate to the message. |
| `InlineData.ImageInLines` | drivers/libmlx4-1.0.6mlnx1/src/qp.c:645-660 | No segment crosses a 64-byte line. |
| `InlineData.MaxInlineExact` | drivers/libmlx4-1.0.6mlnx1/src/qp.c:1670-1709 | A message fits the descriptor if and only if it is no longer than `max_inline_data`. |
| `InlineData.EarlierStartFits` | drivers/libmlx4-1.0.6mlnx1/src/qp.c:1670-1709 | Such a message also fits after a shorter prefix. |
| `InlineData.NumInlineSegsCounts` | drivers/libmlx4-1.0.6mlnx1/src/qp.c:1560-1582 | `num_inline_segs` is the number of segments of a non-empty message, and never too small. |
| `Bitmap.RangeBitmap.constructor` | drivers/libmlx4-1.0.6mlnx1/src/bitmap.h:275-290 | All bits clear, all available, nothing live. |
| `Bitmap.RangeBitmap.FindFirstZero` | drivers/libmlx4-1.0.6mlnx1/src/bitmap.h:115-137 | The least clear bit, or the size if there is none. |
| `Bitmap.RangeBitmap.FindAlignedRange` | drivers/libmlx4-1.0.6mlnx1/src/bitmap.h:165-192 | Terminates with the least aligned free run at or above the start, or fails only if there is none. |
| `Bitmap.RangeBitmap.Alloc` | drivers/libmlx4-1.0.6mlnx1/src/bitmap.h:139-163 | The first free bit becomes a live range of its own; fails only on a full map. |
| `Bitmap.RangeBitmap.AllocRange` | drivers/libmlx4-1.0.6mlnx1/src/bitmap.h:194-234 | Succeeds exactly if an aligned free run exists; the run, chosen from the cursor and then from zero, joins the disjoint live ranges; availability stays the count of clear bits; cursor and top move as in the code. |
| `Bitmap.RangeBitmap.FreeRange` | drivers/libmlx4-1.0.6mlnx1/src/bitmap.h:237-251 | Freeing a live range or any part of it clears exactly those bits; what lies outside the part stays live. |
| `Srq.SharedRq.constructor` | drivers/libmlx4-1.0.6mlnx1/src/srq.c:162-179 | All descriptors are on the free chain. |
| `Srq.SharedRq.Post` | drivers/libmlx4-1.0.6mlnx1/src/srq.c:65-131 | Requests before the first bad one take the first descriptors of the chain in order, none of them in use; one descriptor always stays; errors, counter and doorbell as in the code. |
| `Srq.SharedRq.Free` | drivers/libmlx4-1.0.6mlnx1/src/srq.c:52-63 | A returned descriptor joins the end of the chain; free and in-use descriptors still cover the queue without overlap. |
| `Srq.ChainUnique` | drivers/libmlx4-1.0.6mlnx1/src/srq.c:52-63 | The chain between head and tail is determined by the links. |

## Left out

- MICA internals: bucket chains, extra buckets, hashing, a full table, and the optimistic read loop of `get`; the model has one atomic step per table operation and unbounded versions instead of 60 bits.
- The lock-server mode of `Tx`: the lock server is modelled on its own, not as a replacement for validation.
- Log records: the model has the logging step and the record's length; `tx/tx_logger.h:37` copies from the address of the local variable instead of the object, and nothing reads the records.
- The shared-receive-queue case of CQ cleaning, and 64-byte entry strides.
- `Bitmap.RangeBitmap.AllocRange`: alignments are powers of two, since only for these the code's mask rounds up; `mask + 1` is a multiple of `max`, as where the map is created.
- `FastRecv.RecvQueue.PostRecv`: 32-bit wrap-around of head and tail is not modelled.
- `CompletionQueue.Cq.Clean`: indices are unbounded where the driver's wrap at 32 bits; `& (size - 1)` and `& size` are written as remainder and quotient parity.
- `Decompression.Cq5.Decompress`: a count beyond the ring size, which the hardware does not produce, and byte order are not modelled.
- `Polling.ReqBatch.StartNewReq`: starting and freezing a request are one operation, with the payload given.
- `RecvBound.RecvAvailable`: one worker per machine, since workers exchange messages only with those of the same local number.
- The bytes a request copies past its frozen length, and the 8-byte copy of a 4-byte header.
- Packet-loss detection, statistics, latency measurement, prefetching, huge pages, locks of the drivers, memory barriers and doorbell pages.
- QP creation, kernel commands, connection set-up, shared memory, thread pinning.
- SmallBank, TATP and the other benchmarks; of the applications only the stress test's invariant is proved.
- Failure, recovery and reconfiguration, which the code does not have.
