# A model of the file storage server

The repository is a server that keeps files in memory for many clients. Storage is bounded in bytes
and in number of files and makes room by evicting the oldest written files; files carry a lock with
a queue of waiting clients; a select loop hands client descriptors to a pool of workers and gets them
back through a pipe; a lock manager thread grants freed locks on its own.

| module | stands for |
|---|---|
| `LinkedLists`, `HashTables` | the heap structures of `utils/linked_list.c` and `utils/hash_map.c`, against a sequence and a map |
| `Wire` | the frames of `utils/protocol.c` on a byte stream |
| `FileStore` | each region guarded by `storage->access`, as a function on a value |
| `Accounts`, `Laws`, `Answers`, `Collisions`, `Readings`, `Runs`, `Histories` | what every step keeps, what a step may change, what each request is answered and has then done, what the table loses to colliding keys, where the code departs from its intent, and what follows for whole runs |
| `Handlers` | the storage object, on that hash table and that linked list, and the handlers that update it in place, proved against `FileStore` |
| `Sessions`, `SessionProofs`, `Exclusion`, `Deadlocks`, `SessionReadings` | blocking clients of the API, their `opened_files`, the handlers and the lock manager, interleaved in any order; what clients are told and then have; who blocks for ever; and the sessions of the code as it stands |
| `Replies`, `Delivery` | the replies of more than one frame, sender and reader, and what reaches the client |
| `Dispatch`, `Selectors`, `Scanning`, `Together` | the travel of descriptors, the shutdown of the pool, the select set with `fd_max`, a scan of the loop among the workers with the condition under which it hangs, and the two views of a scan joined |

## How the code is read

Every step of the storage takes a `Reading`. `AsWritten(hash, buckets)` is the code as it stands, over
a table with that hash function and that many buckets; `AsMeant` is the same step without four slips.
The class `Handlers.Storage` and all handler methods are the code as written, on the heap structures
of `HashTables` and `LinkedLists`. The invariants are about the meant steps;
`Readings.ReadingsAgreeIff` says, for every state that keeps the invariant, every request and every
hash, exactly when the two agree. `Runs.AsWrittenRunIsAsMeant` carries the results about runs over to
the code as written on such requests, and `SessionReadings.AsWrittenSessionIsAsMeant` those about
sessions. Where the code departs from its intent:

- `hash_map_remove` empties the whole bucket (`utils/hash_map.c:129-148`). So a removal or an eviction
  loses every stored file whose path shares the bucket; a lost file that was queued stays queued and
  counted, and the next eviction that comes to it dereferences a null pointer. An overwrite also
  counts as a new entry (`utils/hash_map.c:110`).
- `storage_remove_file` stops before the table when the path is not queued
  (`server/storage.c:97-105`). So the removal of a file never written, and every eviction at the file
  limit (`server/worker.c:199-217`), lowers the counters and keeps the table entry.
- An open with lock refuses the holder of the lock and takes it from everybody else
  (`server/worker.c:248`).
- The first write of a file that was appended to before counts the old bytes and the new ones
  (`server/worker.c:442-448`).
- An append is served and then read as well, so two replies are sent for one request
  (`server/worker.c:101-116`), and a read of many files ends with a frame that no client reads
  (`server/worker.c:118-123`).
- `list_insert_head` leaves `tail` unset on an empty list (`utils/linked_list.c:85-88`).
- The select loop reads the pipe once per ready descriptor, also after visiting the pipe itself or
  the listening socket, which bring no value, and workers leave once the shutdown flag is set
  (`server/worker.c:21`, `server/worker.c:153`); so one scan can hang (`server/server.c:352-364`).
- An eviction whose queue runs empty, or that comes to a lost file, dereferences a null pointer
  (`server/storage.c:128-136`). The model gives this outcome a name, `Crash`, and `Laws.CrashIff` says
  exactly when it happens.
- The byte limit is assigned to an `int` (`server/worker.c:580-581`), so from 2^31 on a read of all
  files can be cut short.

The comment on `readNFiles` (`api/fileserver_api.h:54-58`) promises n random files, or all files
stored. The code, which the model follows, takes the n oldest of the files that have been written.

## Model

| member | source | states |
|---|---|---|
| `Accounts.StepInv` | server/worker.c:158-817 | Every storage step of every client and of the lock manager, from any state, keeps: queue free of duplicates and equal to the set of written files, file count equal to the table's size and within `max_files`, byte count equal to the sum of stored sizes, sizes equal to content lengths, lock bit set iff there is an owner, queue no longer than the byte limit |
| `Accounts.CreateInv` | server/worker.c:169-227 | Creation keeps all of that, evicting the oldest file at the file limit |
| `Accounts.WriteInv` | server/worker.c:343-457 | A write keeps all of that whatever it evicts, and even when appends have overshot the byte limit |
| `Accounts.AppendInv` | server/worker.c:459-535 | An append keeps all of that although it never looks at the capacity |
| `Accounts.LockPassInv` | server/lock_manager.c:8-43 | A pass of the lock manager keeps all of that |
| `Accounts.RemoveBooks` | server/storage.c:90-107 | The meant removal keeps table, queue and counters in agreement |
| `Accounts.DequeueThenRemove` | server/worker.c:199-217 | Eviction at the file limit, which dequeues first and removes after, is one eviction of the queue head |
| `Accounts.EvictFits` | server/storage.c:118-152 | Eviction ends with room exactly when the bytes of unwritten files and the required bytes fit; otherwise the queue runs empty first |
| `Accounts.EvictIsShortestPrefix` | server/storage.c:118-152 | Eviction removes exactly the shortest prefix of the queue that makes room, hands those files back in queue order with their contents, and changes nothing else |
| `Accounts.EvictedKeepsUnqueued` | server/worker.c:386-448 | Eviction never touches a file that is not queued, so never the file being written |
| `Accounts.FirstWriteBooks` | server/worker.c:398-448 | After eviction and first write the books balance and the byte count is within the limit |
| `Accounts.QueueBounded` | server/worker.c:351-357 | Written files are never empty, so the queue is no longer than the byte count |
| `Laws.StepLawful` | server/worker.c:158-817 | At every step and for every file: an owner changes only by his own close or unlock, from nobody by an own request or as head waiter, never from client to client; contents change only by the owner's first write or append; waiters join at the end and leave at the head; files appear by creation and leave by their owner or from the queue |
| `Laws.WriteLawful` | server/worker.c:343-457 | The same for writes, with any number of evictions |
| `Laws.CreateLawful` | server/worker.c:169-227 | The same for creation, with the eviction at the file limit |
| `Laws.CrashIff` | server/storage.c:126-136 | In any store whatever, as written and as meant: a step dereferences a null pointer exactly when it is a first write whose eviction comes, before there is room, to the end of the queue or to a path whose file is gone, because it never was in the table or went with an older path |
| `Laws.BalancedCrashIff` | server/storage.c:126-136 | While the invariant holds, that is exactly when the write needs more than all written files can free, or, as written, has to evict two files of one bucket |
| `Collisions.EvictFailsIff` | server/storage.c:126-147 | The same of the eviction loop alone, in any store and for any bytes required |
| `Laws.EmptyQueueCrash` | server/storage.c:126-136 | Six requests of one client that end in an eviction from an empty queue |
| `Laws.NeverCrashes` | server/worker.c:398-408 | While the invariant holds and no bytes sit in unwritten files, no meant request crashes, and a request as written exactly when it evicts two files of one bucket |
| `Laws.NoStrayBytesKept` | server/worker.c:459-535 | That condition survives every step but an append to an unwritten file |
| `Laws.ReadNReadsAll` | server/worker.c:575-612 | A read of n files brings the head of the queue, files with their contents; it brings exactly the first n, or all for n <= 0 or n too large, if and only if n itself is in range, or the byte limit as an `int` is no less than the queue, or the queue is empty |
| `Laws.LimitFits` | server/worker.c:579-582 | Below 2^31 the clamp to the byte limit never truncates |
| `Laws.QueueLaw` | server/worker.c:437-448 | No step reorders the queue; a new path goes last |
| `Laws.EvictedBeforeKept` | server/worker.c:199-217 | Both evictions take files queued before every written file that stays |
| `Answers.LockAnswer` | server/worker.c:684-756 | In both readings, a lock request is answered Success exactly when the file is stored and free or the client's own, and then it is owned by the client and nothing else differs; Awaiting exactly when another owns it, and then the client stands last in line; NotFound exactly when it is not stored |
| `Answers.UnlockAnswer` | server/worker.c:758-817 | An unlock is answered Success exactly for the owner, and then the file is nobody's with contents and waiters kept; BadRequest exactly for a free file, Unauthorized exactly for another's, NotFound exactly for none, and then nothing differs |
| `Answers.CloseAnswer` | server/worker.c:301-341 | A close is answered Success exactly for a stored file and frees it exactly for its owner |
| `Answers.LockOnOpenAnswer` | server/worker.c:229-267 | Which opens with lock are refused in either reading, and what the others take |
| `Answers.CheckAnswer` | server/worker.c:269-286 | An open without flags asks only whether the file is stored |
| `Answers.CreateAnswer` | server/worker.c:169-227 | Each status of a creation with its condition; on Success an empty, free, unqueued file, at the cost of the oldest written one exactly at the file limit |
| `Answers.WriteAnswer` | server/worker.c:351-396 | Each status of a write with its condition; Success exactly for the owner's first write of a body that fits |
| `Answers.WriteDone` | server/worker.c:386-448 | On Success the file holds the body, is the owner's still, and is last in the queue, within the byte limit; a body too big has removed the file and nothing else; any other answer means that nothing was done |
| `Answers.AppendAnswer` | server/worker.c:467-533 | Each status of an append with its condition; on Success the body stands behind the old contents and nothing else differs |
| `Answers.ReadAnswer` | server/worker.c:537-573 | A read is answered Success exactly for a stored file, with its contents, and changes nothing |
| `Answers.RemoveAnswer` | server/worker.c:638-682 | Each status of a removal with its condition; on Success that file is gone, and nothing else, from table and queue |
| `Answers.AnswersAgree` | server/worker.c:158-817 | Whatever else the code as written gets wrong, clients are answered and sent what is meant, except by an open with lock |
| `Readings.ReadingsAgreeIff` | server/worker.c:158-817 | The code as written and as meant agree on a request exactly when: it creates below the file limit (or the queue is empty, or the path exists), opens with lock a file nobody locked, removes only written files of its own, first-writes only a file without earlier bytes, and no other stored file shares a bucket with a file it removes or evicts (the file being written excepted); or crashes either way |
| `Readings.BooksKeptAsWrittenIff` | server/worker.c:158-817 | As written a step that does not crash keeps the invariant exactly on those requests and on every open with lock |
| `Readings.RemoveReadings` | server/storage.c:90-107 | Removal as written is the meant one exactly for a written file alone in its bucket; for an unwritten one the table stays, for a written one its bucket goes, and the count drops by one in any case |
| `Readings.RemoveMiscounts` | server/storage.c:90-107 | Whenever removal as written is not the meant one, the count no longer fits the table |
| `Readings.CreateReadings` | server/worker.c:199-222 | At the file limit the code as written keeps the victim's entry, so the table outgrows the count |
| `Readings.FirstWriteReadings` | server/worker.c:398-448 | A first write as written is the meant one, but for the old size, still counted, and for the files that share a bucket with one it evicts, which are gone, except the file written |
| `Readings.FirstWriteLoses` | server/worker.c:398-448 | As written a first write leaves the meant table exactly when no other stored file shares a bucket with a file it evicts |
| `Readings.QueueOkEitherWay` | server/worker.c:158-817 | From any state with its queue in order, a step keeps it so (no path twice, every path a stored, written file) always as meant, and as written exactly when no file still queued shares a bucket with a file removed or evicted |
| `Readings.RemovedFileStaysAsWritten` | server/storage.c:97-106 | A created, locked and removed file is still stored, still locked and no longer counted |
| `Readings.OpenTakesLockAsWritten` | server/worker.c:247-264 | An open with lock takes the lock from its owner and refuses the owner itself |
| `Readings.FileLimitBrokenAsWritten` | server/worker.c:199-222 | With room for one file a second creation keeps both and counts one |
| `Readings.FirstWriteCountsTwiceAsWritten` | server/worker.c:442-448 | Two bytes appended and one written are counted as three |
| `Readings.CollidingFileLostAsWritten` | utils/hash_map.c:129-148 | For any hash under which two written paths collide: removing one loses the other, still queued and counted, and the next write that evicts crashes |
| `Collisions.EvictReadings` | server/storage.c:118-152 | Eviction as written gets through exactly when the meant one does and no two files it takes share a bucket; then queue, counters and files handed back agree, and from the table also goes exactly what shares a bucket with one of them |
| `Collisions.EvictLeaves` | server/storage.c:126-147 | Whatever the counters say, a meant eviction that gets through leaves the rest of the queue and of the table untouched |
| `Collisions.VictimAt` | server/storage.c:126-136 | The files taken are, in order, those for which dropping the older ones does not make room |
| `Runs.InvAt` | server/worker.c:158-817 | The invariant holds in every state of every interleaving of clients and lock-manager passes |
| `Runs.AsWrittenRunIsAsMeant` | server/worker.c:158-817 | A run of the code as written whose requests meet the agreement condition is a run as meant |
| `Runs.QueueOkAt` | server/worker.c:158-817 | A run of the code as written in which no file still queued shares a bucket with a file taken keeps its queue in order, whatever else it gets wrong |
| `Runs.WriteOnceThenAppend` | server/worker.c:398-448 | Over any run, while a written file is stored it stays written, later contents extend earlier ones, and size is content length |
| `Runs.NoHandOverWithoutRelease` | server/worker.c:323-332 | Over any run a stored file's owner changes only after that owner closed or unlocked it |
| `Runs.GrantedInOrder` | server/worker.c:731-741 | Over any run who waits behind x keeps waiting behind x until a pass has given x the lock |
| `Runs.QueueSortedBySince` | server/worker.c:447 | Over any run the queue is sorted by the time of first successful write |
| `Runs.EvictionTakesOldest` | server/storage.c:126-147 | Over any run, at the byte limit and at the file limit, an evicted file was first written before every written file that stays |
| `Runs.NoStrayBytesAt` | server/worker.c:398-408 | In a run without appends to unwritten files no request can ever crash the server |
| `Histories.HoldsHistory` | server/worker.c:437-446 | Over any run from an empty storage, a stored file holds exactly the body of its write and of the appends it keeps, in order, told from the answers alone |
| `Histories.ReadsHistory` | server/worker.c:537-573 | So a read brings exactly these bytes |
| `Histories.KeepsLock` | server/worker.c:706-749 | Over any run a lock is kept until its owner gives it back or the file leaves the storage |
| `Histories.RefusedMeanwhile` | server/worker.c:706-749 | Meanwhile another's lock request waits, and its open with lock, unlock and removal are refused |
| `Histories.UnlockedIsGranted` | server/lock_manager.c:19-31 | After the owner's unlock the next pass gives a queued file to the client that waited longest, and only that client leaves the line |
| `SessionProofs.NextInv` | api/fileserver_api.c:124-968 | Every act of every API client, of every handler and of the lock manager, in any order, keeps the session invariant |
| `SessionProofs.OpenStepInv` | server/worker.c:158-299 | An open of up to three regions, with others in between, keeps it |
| `SessionProofs.ServeInv` | server/worker.c:80-139 | Every other handler keeps it |
| `SessionProofs.PassInv` | server/lock_manager.c:8-43 | A pass that answers several clients keeps it |
| `SessionProofs.OwnedIsMirrored` | api/fileserver_api.c:185-193 | In every state of every session, a file the server records as locked by c is in c's `opened_files` or is the subject of the open or close c is in |
| `SessionProofs.ClosedOwnsNothing` | api/fileserver_api.c:138-157 | When `closeConnection` has worked through `opened_files`, no stored file is owned by the client and none has it queued |
| `SessionProofs.ConnectsClean` | api/fileserver_api.c:138-157 | A descriptor, also a reused one, starts and ends its connection with no locks and in no queue |
| `SessionProofs.LockRequestsAccountedFor` | server/worker.c:131-137 | In every state, a lock request is unhandled, or has one reply, or is queued once on that file and no other, or is lost; no client waits for a file it owns; there is never a second reply |
| `Exclusion.MutualExclusion` | server/worker.c:706-749 | Over any session, once a client is told on its connection that it has the lock of a file, at once, by an open or by the lock manager, no other client is told so until the first one's close or unlock has run or the file has left the storage |
| `Exclusion.ServedLock` | server/worker.c:131-137 | What a lock request puts on the wire, exactly when, and what the client then has |
| `Exclusion.ServedUnlock` | server/worker.c:140-144 | An unlock is told Success exactly when the client owned the file, which is then free |
| `Exclusion.ServedAnswer` | server/worker.c:80-144 | Every request but an awaited lock is told the answer of its step, once |
| `Exclusion.OpenStepAnswer` | server/worker.c:158-299 | Each step of an open ends it or brings it nearer its end; who has passed the step for the lock has the lock, who has passed the creation has the file |
| `Exclusion.OpenedIsLocked` | api/fileserver_api.c:175-193 | A client that sends an open with lock owns the file when it is told Success, whatever the others did between the steps |
| `Exclusion.MirrorLaw` | api/fileserver_api.c:185-193 | A path comes into `opened_files` only with the success of its open, and leaves only with that of its removal, with its expulsion, or when the connection closes |
| `Exclusion.OwnerActs` | server/worker.c:323-332 | In every act of a session an owner stays, or gives back and leaves no owner |
| `Exclusion.ClientCanAct` | api/fileserver_api.c:124-968 | In every state every client can go on, unless its step would crash, or it waits for a lock or has lost its request |
| `Exclusion.IdleCanSend` | api/fileserver_api.c:160-968 | What an idle client can send, and for which of it the path has to be opened |
| `SessionProofs.LostForEver` | server/storage.c:90-152 | A client whose lock request was lost blocks for ever: over any rest of any session it has no reply on the wire and nothing about it changes |
| `Deadlocks.DeadlockForEver` | server/worker.c:729-748 | A set of clients, each of which has lost its lock request or waits for a file that one of the set owns, blocks for ever: over any rest of any session none gets a reply, takes a step or changes, even when files they wait for are evicted |
| `Deadlocks.TwoClientsDeadlock` | server/worker.c:729-748 | Two clients that wait for each other's files are such a set, in a state that keeps the session invariant and with no request lost |
| `SessionReadings.AsWrittenSessionIsAsMeant` | api/fileserver_api.c:124-968 | A session of the code as written whose handlers meet only requests of the agreement condition is a session as meant |
| `SessionReadings.StepAsWrittenIff` | api/fileserver_api.c:124-968 | As written a step of a session keeps the session invariant exactly when its handler's request meets the agreement condition or is an open with lock |
| `SessionReadings.OpenWithLockInv` | server/worker.c:229-267 | As written an open with lock keeps it even when it takes the lock from its owner |
| `SessionReadings.RemovedStillOwned` | server/storage.c:97-105 | As written a client that removes its own file, and is told that it is gone, still owns it exactly when it never wrote it, while the path has left its `opened_files` |
| `SessionReadings.ReusedDescriptorOwnsAsWritten` | api/fileserver_api.c:138-157 | So a client can close its connection and the next one on that descriptor starts out owning a file |
| `SessionProofs.OneGrantOneReply` | server/lock_manager.c:19-35 | A client granted one file of a pass gets exactly one reply from it |
| `SessionProofs.PassUsers` | server/lock_manager.c:19-31 | After a pass the owners are those before and the head waiters of free queued files, and exactly these left their queues |
| `Handlers.Storage.FifoReplace` | server/storage.c:118-152 | The loop as written, on the heap table and list, is the eviction function as written: same storage left, same files handed back, matching count, crash when and only when the function has no result |
| `Handlers.Storage.RemoveOldest` | server/storage.c:128-147 | One turn of the loop: the head of the queue leaves with its bucket, or the code comes to a null pointer |
| `Handlers.Storage.RemoveFile` | server/storage.c:90-107 | In place, as written: a queued path goes with its bucket; the result is -1 for a path not stored or not queued |
| `Handlers.OpenCreateHandler` | server/worker.c:169-227 | New state and status of the creating region, every error case included |
| `Handlers.OpenLockHandler` | server/worker.c:229-267 | New state and status of the locking region, with the test as written |
| `Handlers.OpenCheckHandler` | server/worker.c:269-286 | Status of the checking region; nothing changes |
| `Handlers.CloseFileHandler` | server/worker.c:301-341 | New state and status of a close |
| `Handlers.WriteFileHandler` | server/worker.c:343-457 | New state and status of a write, and the bytes sent under the mutex: the announced expelled files and nothing when there are none |
| `Handlers.ServeWrite` | server/worker.c:93-99 | The bytes of a served write are exactly the frames of its reply |
| `Handlers.AppendToFileHandler` | server/worker.c:459-535 | New state and status of an append |
| `Handlers.ReadFileHandler` | server/worker.c:537-573 | Status and contents of a read |
| `Handlers.ReadNFilesHandler` | server/worker.c:575-612 | The walk along the list nodes collects the files of the specification, and fails on a path that is not in the table |
| `Handlers.ServeAppend` | server/worker.c:101-116 | The fall-through as written: the bytes of a served append are the frame of the append and then the frame of a read of the new contents |
| `Handlers.ServeRead` | server/worker.c:109-116 | The bytes of a served read are the one frame with status, path and contents |
| `Handlers.ServeReadN` | server/worker.c:118-123 | The bytes of a served read of many files are header, files and one more frame |
| `Handlers.RemoveFileHandler` | server/worker.c:638-682 | New state and status of a removal, as written |
| `Handlers.LockFileHandler` | server/worker.c:684-756 | New state and status of a lock request: granted, already held, or queued last |
| `Handlers.UnlockFileHandler` | server/worker.c:758-817 | New state and status of an unlock |
| `Handlers.LockManagerRun` | server/lock_manager.c:8-43 | The walk along the list nodes, which stops at a path that is not in the table, is the pass on the whole table; the granted clients are replied to in queue order, each once |
| `Handlers.PassAlongIsPass` | server/lock_manager.c:11-41 | By induction along the queue, even one that names a path twice: exactly the files visited that are free with waiters go to their head waiter, nothing else changes |
| `Handlers.PassAlongGrants` | server/lock_manager.c:19-35 | Along a queue without duplicates the replies are one for each file granted |
| `Handlers.PassLeavesNobodyWaitingForAFreeFile` | server/lock_manager.c:19-31 | After a pass no queued file is free with waiters; a granted list lost its head only |
| `Replies.WriteReplyAgreement` | api/fileserver_api.c:451-509 | For any number of expelled files the client reads exactly the frames of the reply and drops exactly the expelled paths |
| `Replies.FramesCarryTheReply` | server/worker.c:408-448 | For every write the server can serve, the frames give the client the result and `opened_files` of the session model |
| `Replies.ReadsAllExpelled` | api/fileserver_api.c:473-494 | The countdown loop consumes the announced files and leaves the rest |
| `Replies.ReadNResidue` | server/worker.c:118-123 | From any state that keeps the invariant, and for any n, the client leaves exactly the worker's trailing frame on the stream |
| `Replies.ReadNLeavesTrailingFrame` | api/fileserver_api.c:347-366 | The client's loop consumes the header and the announced files and nothing after them |
| `Replies.AppendReplyResidue` | server/worker.c:101-116 | For any state and request, the client of an append learns its outcome and leaves exactly the frame of the read on the stream; as meant it leaves nothing |
| `Replies.WriteAfterAppendMisread` | server/worker.c:101-116 | So a write after an append is told how the read went, whatever became of the write, and the whole reply to the write stays unread, its expelled paths still among the opened |
| `Replies.CodeIsPlace` | utils/protocol.h:33-44 | Every status has the code of its place in the protocol's table |
| `Replies.ReceivesFiles` | api/fileserver_api.c:473-494 | The client receives the very paths and bytes of the files sent |
| `Delivery.ReadDelivers` | api/fileserver_api.c:254-280 | Over any run the client of a read decodes Success and the body of the file's write and of the appends it keeps |
| `Delivery.ReadDecodes` | api/fileserver_api.c:254-292 | For any storage the decoded frame says whether the file is stored and carries its contents |
| `Delivery.WriteReturns` | api/fileserver_api.c:451-509 | `writeFile` returns 0 exactly when its write made the file a written one, and then the file holds the body |
| `Delivery.FinalFrame` | server/worker.c:93-99 | The last frame of a served write names its outcome and its file |
| `Delivery.ExpelledDelivered` | api/fileserver_api.c:473-494 | The files a write expels reach its client: the oldest written ones, in order, with their contents |
| `Delivery.ReadNDelivers` | api/fileserver_api.c:347-366 | A read of n files delivers the first n of the queue, or all, with their contents |
| `Replies.CStringRoundTrip` | server/worker.c:427-428 | A path without zero bytes survives its terminated form |
| `Replies.IntOfBytes` | api/fileserver_api.c:473-474 | The count in the header is read back as sent |
| `Replies.SendAnnounce` | server/worker.c:418-438 | The header and the loop send the announcement's frames |
| `Replies.SendFiles` | server/worker.c:424-438 | The loop sends one frame per file, in order |
| `Replies.ApiClient.ReceiveWriteReply` | api/fileserver_api.c:451-509 | On bytes: result, `opened_files` and what is left of the stream are those of the frame reader |
| `Replies.ApiClient.RecvFrame` | utils/protocol.c:159-207 | One read takes one frame off an encoded stream |
| `Wire.RequestRoundTrip` | utils/protocol.c:36-119 | Decoding an encoded request gives it back and leaves what follows, for all lengths, zero included |
| `Wire.ResponseRoundTrip` | utils/protocol.c:132-207 | The same for responses |
| `Wire.RequestStreamRoundTrip` | utils/protocol.c:36-119 | A stream of any number of requests decodes to them with nothing left over |
| `Wire.ResponseStreamRoundTrip` | utils/protocol.c:132-207 | The same for responses |
| `Wire.RequestLayout` | utils/protocol.c:36-66 | Where each field of a request lies on the wire |
| `Wire.ResponseLayout` | utils/protocol.c:132-157 | Where each field of a response lies on the wire |
| `Wire.Channel.SendRequest` | utils/protocol.c:36-66 | Writes the encoding, or nothing and -1 for a negative descriptor |
| `Wire.Channel.RecvRequest` | utils/protocol.c:68-119 | Reads what the decoder reads |
| `Wire.Channel.SendResponse` | utils/protocol.c:132-157 | Writes the encoding, or nothing and -1 for a negative descriptor |
| `Wire.Channel.RecvResponse` | utils/protocol.c:159-207 | Reads what the decoder reads |
| `Dispatch.StepInv` | server/server.c:282-378 | Every step of the master, a worker or a signal keeps: each live client in exactly one of select set, queue, one worker's hands and pipe, every other descriptor in none; the connection count equal to the live clients and those closed but not yet counted out; no wake-up lost; items enough for the workers |
| `Dispatch.RunInv` | server/server.c:282-378 | This holds in every state of every run from the start |
| `Dispatch.OneHolder` | server/worker.c:28-41 | No two workers ever serve the same client, and a held client is in no other place |
| `Dispatch.NobodyForgotten` | server/server.c:306-367 | Every live client is in the select set, the queue, the pipe or a worker's hands |
| `Dispatch.GracefulMeansAllClosed` | server/server.c:370-376 | Graceful shutdown fires only when every accepted client has closed and been counted out |
| `Dispatch.NoneAcceptedAfterHangup` | server/signal_handler.c:42 | Over any run, after the hang-up signal no client is accepted |
| `Dispatch.GracefulReady` | server/server.c:370-376 | After it, once all clients have closed and been counted out, the graceful shutdown is enabled, the loop can be left and the draining begins |
| `Dispatch.InterruptReady` | server/signal_handler.c:33 | An interrupt lets the loop be left whatever the clients do |
| `Dispatch.TerminatorsDrain` | server/server.c:447-460 | From there, whatever the workers do meanwhile, one terminator for each worker leads to the drained pool |
| `Dispatch.TerminateReady` | server/server.c:447-460 | While a terminator is missing it can be sent |
| `Dispatch.QueueInOrder` | server/worker.c:23-41 | Over any run requests are taken up in order of arrival, each by the worker that then serves it |
| `Dispatch.EnqueueWakes` | server/server.c:332-343 | A request wakes a sleeping worker, and that worker can take it |
| `Dispatch.WakeUpLooks` | server/worker.c:26-28 | A worker that wakes takes the first item, or sleeps on when there is none |
| `Dispatch.HangupCounts` | server/worker.c:65-78 | A close takes its client out of the live ones and out of the count |
| `Dispatch.Connections` | server/worker.c:65-78 | The connection count over every step |
| `Dispatch.WorkerPlaces` | server/worker.c:28-146 | Every step of a worker keeps each client in one place |
| `Dispatch.MasterPlaces` | server/server.c:306-368 | Every step of the master keeps each client in one place |
| `Dispatch.NobodyLeftWaiting` | server/server.c:447-460 | Once every terminator is queued no worker waits unsignalled, and each worker at the queue has an item |
| `Dispatch.NobodyBlocked` | server/worker.c:23-41 | Then every worker that has not exited can step |
| `Dispatch.DrainStep` | server/worker.c:21-153 | And every step brings its worker nearer to its exit |
| `Dispatch.AllJoin` | server/server.c:462-466 | So whatever the schedule, only boundedly many steps remain, and when none is possible every worker has exited: all joins complete |
| `Selectors.Selector.Add` | server/server.c:319-321 | Adding a descriptor keeps `fd_max` a bound |
| `Selectors.Selector.Clear` | server/server.c:345-348 | Clearing one lowers the bound by one at most and keeps it a bound |
| `Selectors.Selector.OnSignal` | server/server.c:292-303 | The signal step keeps it a bound |
| `Selectors.Selector.ScanAll` | server/server.c:306-368 | One scan visits every ready descriptor although `fd_max` moves, if and only if as many pipe values come as there are ready descriptors, also values that workers write meanwhile and descriptors handed over earlier in the same scan; otherwise it stays in a read after the lowest ones, one more than values came. Either way what was handed over and what is selected is exactly determined and `fd_max` stays a bound |
| `Selectors.HandedOverIs` | server/server.c:308-350 | What is handed over is exactly the visited descriptors but for the pipe and the accepting socket, in increasing order |
| `Selectors.StandingStep` | server/server.c:308-364 | One visit and one read advance the account of handed over, accepted and taken back by one descriptor |
| `Selectors.StillSelected` | server/server.c:306-350 | What is ready and not yet visited is still selected, so never above `fd_max` |
| `Scanning.StuckIff` | server/server.c:352-364 | In any state of a scan, shutting down or not: no steps of workers, however many, let the pending read go on exactly when pipe and workers' hands are empty and the queue is empty or has no worker left that will take from it |
| `Scanning.EndsIff` | server/server.c:306-368 | In any state of a scan of the pipe: the loop and the workers can still bring it to its end exactly when the values in the pipe, in workers' hands, and of those clients, queued or to be handed over, that a worker will still serve are no fewer than the reads outstanding |
| `Scanning.HangsIff` | server/server.c:306-368 | When `select` reports and the server is not shutting down: a scan cannot end exactly when the listening socket is ready beside the pipe and one value only is on its way |
| `Scanning.HangsIffShutdown` | server/worker.c:21-41 | The same with the shutdown flag set: exactly when values and workers past their check are too few for the ready descriptors |
| `Scanning.InterruptHangs` | server/worker.c:146-153 | A scan that can end until an interrupt during it, and can never end after |
| `Scanning.HangsNeverEnds` | server/server.c:306-368 | Over every scan among any steps of workers and interrupts: with too few values it never ends; with enough, and until an interrupt, no schedule makes it stuck and it can always still end |
| `Scanning.StuckStep` | server/server.c:352-364 | A stuck loop takes no step, and no step of a worker and no interrupt frees it |
| `Scanning.SomebodyMoves` | server/worker.c:23-41 | Whatever is still to come is in the pipe, or some worker, awake, is on its way to write it |
| `Scanning.AbleDelivers` | server/worker.c:23-146 | Such a worker brings its value by its own steps |
| `Scanning.BalanceStep` | server/server.c:308-364 | Values to come, less reads outstanding, never change during a scan, but that an interrupt can lower them |
| `Scanning.WorkerSupply` | server/worker.c:21-153 | No step of a worker changes how many values will come, shutting down or not |
| `Scanning.QuietAt` | server/worker.c:21-153 | Over every run, before the threads are joined there is no terminator in the queue, and no worker has exited without the flag |
| `Scanning.DeliveredIsVisited` | server/server.c:352-364 | No read delivers a descriptor that the scan has still to visit |
| `Scanning.ScanStep` | server/server.c:306-368 | Every step during a scan keeps the descriptors conserved and the unvisited ones selected |
| `Scanning.VisitReady` | server/server.c:306-350 | A loop that is not in a read can always go on |
| `Together.Walk` | server/server.c:306-368 | Every scan that ends among the workers ends as a walk up to the moving `fd_max`, too: all ready descriptors are visited, the bound holds, and walk and acts leave the same set |
| `Together.ScanOfOk` | server/server.c:306-368 | The values read, the client accepted and the descriptors handed over by the acts are what the walk needs and gives |
| `Together.TiedAt` | server/server.c:306-368 | In every state of every scan the select set is the one at the start, less the clients visited, plus the new client and those read from the pipe |
| `HashTables.ClearBucketIsDeleteIff` | utils/hash_map.c:123-154 | The removal as written is map deletion iff the key is alone in its bucket |
| `HashTables.ClearBucketKeeps` | utils/hash_map.c:125-148 | The removal as written keeps, with its value, exactly every key whose hash differs modulo the number of buckets |
| `HashTables.ClearBucketLosesCollidingKey` | utils/hash_map.c:129-148 | Two colliding keys: removing one loses the other |
| `HashTables.HashTable.RemoveAsWritten` | utils/hash_map.c:123-154 | In place, as written: the whole bucket of a present key goes, and the count drops by one |
| `HashTables.HashTable.Remove` | utils/hash_map.c:123-154 | The meant removal is map deletion |
| `HashTables.HashTable.Insert` | utils/hash_map.c:77-112 | Map update; the count grows even on overwrite |
| `HashTables.HashTable.Get` | utils/hash_map.c:165-177 | Map lookup |
| `LinkedLists.LinkedList.InsertTail` | utils/linked_list.c:43-69 | The value goes last; `tail` is the last node |
| `LinkedLists.LinkedList.InsertHead` | utils/linked_list.c:71-90 | The value goes first; `tail` is right afterwards iff the list was not empty |
| `LinkedLists.LinkedList.InsertAtIndex` | utils/linked_list.c:92-136 | Insertion at any index, -1 outside; `tail` stays right iff nothing was inserted or the list was not empty |
| `LinkedLists.LinkedList.RemoveHead` | utils/linked_list.c:138-159 | Takes the first value, or nothing from an empty list |
| `LinkedLists.LinkedList.RemoveTail` | utils/linked_list.c:161-188 | Takes the last value, or nothing from an empty list |
| `LinkedLists.LinkedList.RemoveElement` | utils/linked_list.c:190-221 | Removes the first match or nothing; `tail` goes stale exactly as written when the list empties |
| `LinkedLists.LinkedList.IsEmpty` | utils/linked_list.c:223-232 | True iff the list holds nothing |
| `LinkedLists.LinkedList.Find` | utils/linked_list.c:234-247 | The first index of the value, or -1 |

## Left out

- Sockets, pipes, `select` and threads: steps of the models; reads and writes are complete, and failed or short I/O, a failing `accept` and a request that cannot be received (`server/worker.c:45-52`) are not modelled.
- Allocation failure, freeing of memory, and pointers shared between queue entries and `file->path`: paths are values, and a file is a value that `storage_update_file` puts back into the table.
- Widths of `size_t` and `int` in the storage counters: unbounded numbers; the subtraction in `storage_remove_file` therefore goes below zero where the code would wrap around. The lengths and counts on the wire and the clamp of a read of many files do have their widths.
- Use after free: when a path lost to a collision is created anew it is queued while unwritten, and an eviction may free it while its own write goes on (`server/storage.c:143`, `server/worker.c:442-448`); and a failed read of many files frees the files it listed (`server/worker.c:119-121`). Both are taken as if the memory were still there.
- Handlers.Storage.constructor: asks for at least one file, because with `max_files` 0 the table has no buckets and its first lookup divides by zero (`server/storage.c:23`, `utils/hash_map.c:167`).
- Handlers.ServeAppend: no other client comes between the append and the read it falls into.
- Early returns that keep the mutex (`server/worker.c:548-561`, `server/worker.c:733-738`), and the removal after the mutex is given back (`server/worker.c:388-389`), which counts as part of its region.
- The hash of a key is any function, and the phrase of a status any constant of its width.
- The listening socket queued as a client when connections stop being accepted during a scan (`server/server.c:312-337`): the signal and the clearing of that socket are one step.
- Sessions have the replies of one request each, so not the residue that `Replies.AppendReplyResidue` and `Replies.ReadNLeavesTrailingFrame` describe; nor the handshake and the retries of `openConnection`, nor clients that vanish without closing.
- The path checks and disk reads and writes of the API: paths are absolute already, and each implicit open is a call of its own before the request.
- Waiting for ever: a lost lock request is recorded, not repaired; waiters on files never written are not visited by the lock manager, and no fairness is claimed beyond a pass and the shutdown.
- Logging, statistics, configuration, signal set-up, `client/client.c` and the scripts.
- Handlers.Storage.FifoReplace: the parameter `how_many`, which the code ignores, is left out.
- Readings.BooksKeptAsWrittenIff: stated for one step from a state that keeps the invariant, because as written the invariant is gone after the first request outside the condition.
- Selectors.Selector.ScanAll: takes from outside that no value read and no new client is a ready descriptor still to be visited; `Together.ScanOfOk` proves it of the whole server.
- Deadlocks.DeadlockForEver: one direction; that a client outside every such set can be answered is not claimed, because it hangs on what the others choose to do.
- Replies.FramesCarryTheReply: needs a byte limit below 2^31, because the number of expelled files is sent as an `int`; so does Replies.ReadNResidue.
- Dispatch.TerminatorsDrain: the joins of the signal and lock-manager threads before the first terminator are not modelled.
