# FileTransfer: a verified model of the three transports

FileTransfer moves a file from a reading task to a writing task over one of three transports: two threads
sharing a lock-free circular buffer, two processes sharing one slot of memory, or clients sending encrypted
frames to a server. This project models the protocol at the centre of each transport and proves what it
delivers, under every interleaving, and exactly when it does not.

`dafny verify dfyconfig.toml` checks everything, in about a minute.

## How the model is laid out

| file | what it models |
|---|---|
| `Chunking.dfy` | `FileDataReader` and the producer loop `FileDataTransferTask` |
| `Ring.dfy` | `CircularBuffer`, `BufferWriter`, `BufferReader` and the two flags, as classes over an array, for one caller at a time |
| `Threads.dfy` | the two threads: every atomic load or store and every byte moved is one step of a deterministic thread; a schedule says who moves |
| `ThreadSafety.dfy` | the invariant of all interleavings |
| `ThreadDelivery.dfy` | what a run delivers: order, slot stability, bounds on loss |
| `ThreadLiveness.dfy` | a measure that every step but a spinning one lowers; fair runs end; lost wake-ups |
| `ThreadTurns.dfy` | uninterrupted stretches of steps do what the sequential ring does |
| `ThreadHang.dfy` | the schedules that hang or lose everything, and the exact conditions for them |
| `ThreadCoarse.dfy` | the coarse view, as the schedules in which nobody is interrupted inside the ring |
| `ThreadReturn.dfy` | what a run that returns can have lost, and the exact conditions |
| `SharedMemory.dfy` | the slot, and the reader's view of it |
| `Handoff.dfy` | the semaphore protocol around the slot: every semaphore operation and every byte moved is one step; what is handed over |
| `HandoffFile.dfy` | what the file gets of the chunks handed over, the slot being freed before the view is used |
| `HandoffRuns.dfy` | the runs that deliver everything, abandon the last chunk or replace a chunk by its successor, and the exact conditions |
| `HandoffTokens.dfy` | the stop tokens: how many are posted, and what one does to the reader |
| `HandoffLiveness.dfy` | every fair run of the two processes settles |
| `Ctr.dfy` | counter mode and `Encryption`, with the block cipher left open |
| `Framing.dfy` | `Serializer` |
| `Receiver.dfy` | `DataHandler`, connection numbers and folders, many connections on one decryptor |
| `Transfer.dfy` | the sending tasks, and whole transfers |
| `Survival.dfy` | which deliveries the server survives, and what a bad one does to other connections |
| `Bytes.dfy`, `Modular.dfy` | helpers |

In the threaded model head and tail are the code's wrapped indices; the absolute positions are the lengths of
two histories, `delivered` (released through head) and `accepted` (published through tail).

## What came out false, and the exact condition

- The threaded transfer can hang with both threads spinning forever. A hang is reachable exactly when the source
  has at least as many bytes as the buffer has slots (`ThreadHang.HangReachableIff`): the flag
  `writingEnabled_` can be lowered on a stale decision, after the consumer has emptied the ring and gone to
  wait. Without stale stores, and for capacity at least 2, it cannot happen
  (`ThreadLiveness.NoLostWakeUp`), and every fair run returns; with a single slot a run that has something to
  send can hang even so (`ThreadHang.FreshHangReachableIff`).
- The threaded transfer can return with bytes missing, since a full ring drops bytes and the consumer reads nothing
  once `running_` is down. It can return with an empty file exactly when the source has fewer bytes than the buffer
  has slots (`ThreadReturn.EmptyReturnIff`). Every run that returns leaves a whole copy exactly when the source is
  empty, or the buffer has a single slot, and then no run with anything to send returns
  (`ThreadReturn.WholeReturnIff`); with more than one slot some run always does deliver everything
  (`ThreadReturn.DeliveryReachableIff`). Delivery can always still be completed only for the empty source
  (`ThreadHang.DeliveryAssuredIffEmpty`).
- The process hand-off can leave the last chunk in the slot and the writer's `Stop` posting tokens forever, exactly
  when the file is not empty (`HandoffRuns.AbandonReachableIff`, `HandoffTokens.AbandonedPostsForever`). All other chunks are handed over, once each and in
  order, and every fair run ends in one of these two ways (`HandoffLiveness.FairRunsSettle`).
- What is handed over is a view of the slot, and the reader frees the slot before it has written the view out. A
  later chunk can take the place of an earlier one in the file, even in a run in which both processes return,
  exactly when some two consecutive chunks look different through a view of the first one's size
  (`HandoffRuns.CorruptReachableIff`). The file is right in the runs
  in which the slot is left alone while a view is in use (`HandoffFile.UndisturbedFile`); in all others each byte is
  that of its own chunk or the one at its place in the next (`HandoffFile.FileBytes`).
- Packing and unpacking a frame gives the payload back exactly when its length fits the 4-byte field
  (`Framing.RoundTripIff`); beyond that a partial frame can be taken for a whole one
  (`Framing.NoPartialFrameIff`). The chunks of this program are far below the limit.
- Connections are not isolated from each other's failures: a delivery that raises, on whatever connection,
  leaves `io_context::run` and ends the server. One cut frame, or data without a name, and the file of a client on another
  connection is never written (`Survival.OneStopsAnother`). The server survives exactly if all deliveries are whole
  non-empty frames with a name before any data, connection by connection (`Survival.SurvivesIff`), which is to say
  exactly if every connection alone would do without a failure (`Survival.SurvivesIffAllFineAlone`). On such
  deliveries every connection stands where its own frames would have brought it alone
  (`Survival.InOrderIsolation`).

## Model

| member | source | states |
|---|---|---|
| `Chunking.FileDataReader.Read` | multy/src/FileStream/FileDataReader.h:59-71 | each read yields the next full chunk, then one short one, then nothing, although a short read shrinks the buffer |
| `Chunking.RunFileDataTransfer` | multy/src/common/FileDataTransferTask.h:44-51 | the producer loop ends, and its calls are one write for each remaining chunk, in order, and then one stop |
| `Chunking.ChunksConcatenateToFile` | multy/src/FileStream/FileDataReader.h:59-71 | from any position, the chunks concatenate to the rest of the file |
| `Chunking.ChunksLosslessIff` | multy/src/FileStream/FileDataReader.h:22-25 | the chunks carry the whole file if and only if the chunk size is positive or the file is empty |
| `Chunking.ChunkLayout` | multy/src/FileStream/FileDataReader.h:59-71 | there are ceil(size/chunk) chunks, none empty, all but the last full, the k-th at offset k times the chunk size |
| `Ring.CircularBuffer.constructor` | multy/src/Threads/CircularBuffer.h:29-41 | a new ring holds nothing, for every positive capacity |
| `Ring.CircularBuffer.Index` | multy/src/Threads/CircularBuffer.h:53-56 | index head+i is the i-th stored byte, across the wrap |
| `Ring.CircularBuffer.GetDataSize` | multy/src/Threads/CircularBuffer.h:62-68 | the length of the stored queue |
| `Ring.CircularBuffer.Write` | multy/src/Threads/CircularBuffer.h:74-89 | a push on a queue bounded by capacity-1: appends, or rejects when full |
| `Ring.CircularBuffer.SetHead` | multy/src/Threads/CircularBuffer.h:104-116 | advances head: drops that many of the oldest bytes |
| `Ring.FullTest` | multy/src/Threads/CircularBuffer.h:76-79 | the comparison of indices holds if and only if capacity-1 bytes are stored |
| `Ring.WriteIsBoundedPush` | multy/src/Threads/CircularBuffer.h:74-89 | storing in place and wrapping tail is a bounded push, with the exact effect on both flags |
| `Ring.AdvanceIsDrop` | multy/src/Threads/CircularBuffer.h:104-116 | advancing head drops a front of the queue, opens writing, and closes reading exactly when nothing is left |
| `Ring.ChunkKeptUpToFreeSpace` | multy/src/Threads/BufferWriter.h:28-34 | of a chunk pushed with nobody reading, exactly what fits is kept, in order, and writing is disabled if and only if something was dropped |
| `Ring.BufferWriter.Write` | multy/src/Threads/BufferWriter.h:28-34 | the push loop carries on past rejected bytes and has that effect |
| `Ring.BufferReader.Read` | multy/src/Threads/BufferReader.h:30-42 | returns everything stored, oldest first across the wrap, and empties the ring |
| `Threads.StuckForever` | multy/src/Threads/SyncWriteDataAccess.h:52-57 | with both flags down and both threads in their spin loops nothing ever changes again |
| `Threads.ProducerWaits` | multy/src/Threads/SyncWriteDataAccess.h:34-57 | with writing down a producer before a chunk or before its stop gets no further by itself, however long it runs |
| `Threads.ConsumerWaits` | multy/src/Threads/SyncReadDataAccess.h:19-29 | with reading down and the run not stopped a consumer at its gate gets no further by itself |
| `ThreadSafety.OutcomeInv` | multy/src/Threads/CircularBuffer.h:62-116 | the invariant holds after every schedule |
| `ThreadDelivery.FirstInFirstOut` | multy/src/Threads/BufferReader.h:30-42 | after every schedule: released bytes followed by the stored ones are the accepted ones, a half-done copy is the matching front of the ring, the file is a front of what was released |
| `ThreadDelivery.SlotStability` | multy/src/Threads/CircularBuffer.h:76-86 | the slot about to be stored into is none the consumer has still to copy, and storing leaves the queue alone, however stale the producer's view of head |
| `ThreadDelivery.DecisionsIff` | multy/src/Threads/CircularBuffer.h:79-115 | after every schedule, the next load decides to reject if and only if capacity-1 bytes are stored then, and to close for reading if and only if none is |
| `ThreadDelivery.ChunkLossBound` | multy/src/Threads/BufferWriter.h:28-34 | whatever the consumer does, the first min(pushed, free) bytes of a chunk are accepted; at most the excess is rejected |
| `ThreadDelivery.WholeRun` | multy/src/common/BufferTransferTask.h:44-52 | accepted bytes are a subsequence of the source, the file a front of them, and at most capacity-1 are missing once both threads have returned |
| `ThreadDelivery.SmallSourceLosesNothingToRejection` | multy/src/Threads/CircularBuffer.h:79-87 | a source of at most capacity-1 bytes has no rejections; its file is a front of the source and writing stays enabled |
| `ThreadLiveness.StepWorks` | multy/src/Threads/SyncReadDataAccess.h:19-29 | a natural-number measure over unsent bytes, stored bytes and program points falls on every step that does not spin, and never rises |
| `ThreadLiveness.OnlySpinningIff` | multy/src/Threads/SyncWriteDataAccess.h:34-59 | nothing but spinning is left if and only if both threads have returned or both flags are down with both threads waiting |
| `ThreadLiveness.FairRunsEnd` | multy/src/common/FileDataTransferTask.h:44-51 | every fair run, at the finest granularity, has returned or is stuck after a number of rounds linear in the source |
| `ThreadLiveness.SmallSourceFairRunsReturn` | multy/src/Threads/SyncWriteDataAccess.h:52-59 | with fewer source bytes than slots every fair run returns |
| `ThreadLiveness.NoLostWakeUp` | multy/src/Threads/CircularBuffer.h:79-87 | if every lowering of a flag happens while its condition holds, both flags are never down with both threads outside the ring, for capacity at least 2 |
| `ThreadLiveness.FreshFairRunsReturn` | multy/src/Threads/CircularBuffer.h:109-115 | under the same condition every fair run returns, whatever the source |
| `ThreadTurns.WriteTurn` | multy/src/Threads/CircularBuffer.h:74-89 | the producer's steps through `Write`, uninterrupted, do to the ring what the sequential `Write` does |
| `ThreadTurns.ReadTurn` | multy/src/Threads/BufferReader.h:30-42 | the consumer's steps through `Read`, uninterrupted, take the whole queue and leave it empty |
| `ThreadHang.HangReachableIff` | multy/src/Threads/CircularBuffer.h:79-82 | some schedule leaves both threads spinning forever if and only if the source has at least as many bytes as the buffer has slots |
| `ThreadHang.FreshHangReachableIff` | multy/src/Threads/CircularBuffer.h:79-87 | even if every lowering of a flag happens while its condition holds, some run hangs if and only if the capacity is 1 and the source is not empty |
| `ThreadReturn.EmptyReturnIff` | multy/src/Threads/SyncReadDataAccess.h:26 | some run returns with an empty file if and only if the source has fewer bytes than the buffer has slots |
| `ThreadReturn.WholeReturnIff` | multy/src/Threads/SyncReadDataAccess.h:19-29 | every run that returns leaves a whole copy if and only if the source is empty or the capacity is 1 |
| `ThreadReturn.StopSettlesFile` | multy/src/Threads/SyncReadDataAccess.h:19-29 | once `running_` is down the final file is settled, whatever the schedule: a read already begun is finished with what it found, and from any other point, also past the spin loop, nothing more is taken |
| `ThreadReturn.LossPastGateIff` | multy/src/Threads/SyncReadDataAccess.h:26 | some run stores and announces the whole source, lets the consumer past its gate because of it, and still returns with an empty file, if and only if the source is not empty and fits |
| `ThreadReturn.DeliveryReachableIff` | multy/src/common/BufferTransferTask.h:44-52 | some run returns with a whole copy if and only if the source is empty or the capacity is at least 2 |
| `ThreadHang.DeliveryAssuredIffEmpty` | multy/src/Threads/SyncReadDataAccess.h:19-29 | after every schedule a whole copy is still reachable, if and only if the source is empty |
| `ThreadCoarse.FlagMeaning` | multy/src/Threads/CircularBuffer.h:74-116 | with uninterrupted moves, reading is enabled if and only if something is stored, writing disabled only when full, and for capacity at least 2 never both down |
| `ThreadCoarse.CoarseFairRunsReturn` | multy/src/Threads/SyncWriteDataAccess.h:34-59 | with uninterrupted moves and capacity at least 2 every fair run returns |
| `SharedMemory.WriteSlot` | multy/src/MultiProcess/SharedWriteData.h:52-63 | after a write the slot holds the chunk and nothing else, whatever its size was |
| `SharedMemory.ReadAndWriteOut` | multy/src/common/BufferTransferTask.h:46-50 | a view taken and written out gives the slot's contents at the read if nothing was written meanwhile, otherwise the chunk written last, in the size of the first |
| `SharedMemory.WriteOut` | multy/src/common/BufferTransferTask.h:46-50 | writing a view out shows what the slot holds by then, cut or filled up to the size it had at the read |
| `Handoff.HandOver` | multy/src/MultiProcess/SharedReadDataAccess.h:63-72 | after every schedule: token conservation; the chunks handed over, as the slot stands at each read, are the chunks written, once each, in order, at most one behind, and a front of the source |
| `Handoff.SlotNotOverwritten` | multy/src/MultiProcess/SharedReadDataAccess.h:65-69 | between the reader's data wait and its space post the writer cannot touch the slot, which holds the last chunk written |
| `Handoff.StopReturnsDelivered` | multy/src/MultiProcess/SharedWriteDataAccess.h:72-79 | when the writer's `Stop` has returned, every chunk of the file has been handed over |
| `Handoff.AbandonedForever` | multy/src/MultiProcess/SharedReadDataAccess.h:82-85 | if the reader leaves with a chunk pending, the space count stays 0 and `Stop` never returns |
| `Handoff.AbandonedLosesLastChunk` | multy/src/MultiProcess/SharedReadDataAccess.h:82-85 | then every chunk was written and exactly the last one was not handed over |
| `Handoff.StopCanReturnIff` | multy/src/MultiProcess/SharedWriteDataAccess.h:72-79 | once the reader has left, `Stop` can still return if and only if nothing was left behind |
| `HandoffTokens.StopTokensConserved` | multy/src/MultiProcess/SharedReadDataAccess.h:82-85 | after every schedule the stop tokens posted are those still there and the one the reader left on |
| `HandoffTokens.StopPostsAgain` | multy/src/MultiProcess/SharedWriteDataAccess.h:72-79 | without space, n failed tries make `Stop` post n more tokens |
| `HandoffTokens.AbandonedPostsForever` | multy/src/MultiProcess/SharedWriteDataAccess.h:72-79 | after a chunk was abandoned the stop tokens pass every bound |
| `HandoffTokens.StopTokenEndsReading` | multy/src/common/BufferTransferTask.h:44-52 | once a stop token is posted the reader takes at most the chunk it is already trying for |
| `HandoffTokens.PostedIsTaken` | multy/src/MultiProcess/SharedReadDataAccess.h:63-72 | and that chunk it does take if it has been posted, whatever stop tokens there are |
| `HandoffFile.DisturbedIff` | multy/src/MultiProcess/SharedReadDataAccess.h:67-69 | a view has been disturbed if and only if some step of the writer resized or filled the slot while the reader was still writing the view out |
| `HandoffFile.FileBytes` | multy/src/common/BufferTransferTask.h:46-50 | after every schedule the file is one piece for each chunk handed over, of that chunk's size, and each byte is the chunk's or the one at its place in the next chunk |
| `HandoffFile.UndisturbedFile` | multy/src/common/BufferTransferTask.h:46-50 | as long as no view was disturbed the file is a front of what was handed over, and all of it between two reads |
| `HandoffRuns.DeliveryReachable` | multy/src/common/FileDataTransferTask.h:44-51 | for every file some run copies all of it and lets both processes return |
| `HandoffRuns.AbandonReachableIff` | multy/src/MultiProcess/SharedReadDataAccess.h:82-85 | some schedule abandons a chunk if and only if the file is not empty |
| `HandoffRuns.CorruptReachableIff` | multy/src/MultiProcess/SharedReadDataAccess.h:67-69 | some schedule makes the file something else than a front of the source, and some run in which both processes return leaves something else than the source, if and only if two consecutive chunks look different through a view of the first one's size |
| `HandoffRuns.DifferingIff` | multy/src/FileStream/FileDataReader.h:59-71 | that is, if and only if some byte before the last chunk differs from the one a chunk size further on, zeros beyond the end |
| `HandoffLiveness.StepWorks` | multy/src/MultiProcess/SharedWriteDataAccess.h:63-79 | a measure falls on every step that does not spin, and never rises |
| `HandoffLiveness.OnlySpinningIff` | multy/src/MultiProcess/SharedReadDataAccess.h:63-85 | only spinning is left if and only if both processes have returned or the last chunk is abandoned |
| `HandoffLiveness.FairRunsSettle` | multy/src/common/BufferTransferTask.h:44-52 | every fair run has, after a number of rounds linear in the source, handed over everything and returned, or abandoned the last chunk; undisturbed, the file is what was handed over |
| `HandoffLiveness.ReaderFinishes` | multy/src/common/BufferTransferTask.h:44-52 | once `Stop` has returned the reader alone finishes within two steps more than its view has bytes left; the file has the source's size and, if undisturbed, its contents |
| `Ctr.IncrementIsPlusOne` | multy/src/Network/Encryption.cpp:26-31 | the counter increment with carries is plus one modulo 2^128, the standard incrementing function |
| `Ctr.CountersDistinct` | multy/src/Network/Encryption.cpp:26-31 | within 2^128 blocks of a message no counter block repeats, whatever the IV |
| `Ctr.CryptIsCtr` | multy/src/Network/Encryption.cpp:26-31 | byte by byte processing is counter mode block by block, the last block possibly short |
| `Ctr.CryptCancels` | multy/src/Network/Encryption.cpp:40-49 | processing twice with the same IV gives the data back |
| `Ctr.CtrMode.Resynchronize` | multy/src/Network/Encryption.cpp:26 | starts a new stream, whatever the counter and the left-over key stream were |
| `Ctr.CtrMode.ProcessData` | multy/src/Network/Encryption.cpp:27-31 | continues the present stream in place, across block borders |
| `Ctr.Encryption.Encrypt` | multy/src/Network/Encryption.cpp:19-38 | the result depends on the drawn IV and the data alone |
| `Ctr.Encryption.Decrypt` | multy/src/Network/Encryption.cpp:40-56 | the result depends on the IV and the data alone, not on earlier messages |
| `Framing.LengthKeptModulo` | multy/src/common/Serializer.h:49-51 | four bytes keep the payload's length modulo 2^32 |
| `Framing.FrameLayout` | multy/src/common/Serializer.h:39-55 | type, IV, length with the low byte first and encrypted payload stand in this order at fixed places |
| `Framing.Serializer.Pack` | multy/src/common/Serializer.h:28-56 | yields the frame for the serializer's type, the drawn IV and the data; nothing for empty data |
| `Framing.Serializer.Unpack` | multy/src/common/Serializer.h:58-80 | yields what the bytes parse to, raises when the length field exceeds the data, and sets the type only when there is a header |
| `Framing.ParseFrame` | multy/src/common/Serializer.h:58-80 | a packed frame, with any trailing bytes, unpacks to its type and its payload cut to the length modulo 2^32 |
| `Framing.ParseIff` | multy/src/common/Serializer.h:58-80 | exactly which bytes are too short, which make unpacking throw, and of what size the payload is otherwise |
| `Framing.CutFrameThrows` | multy/src/common/Serializer.h:60-74 | a cut frame is too short for its header, or throws after its type was taken over |
| `Framing.RoundTripIff` | multy/src/common/Serializer.h:28-80 | packing then unpacking gives payload and type back if and only if the payload is shorter than 2^32 |
| `Framing.NoPartialFrameIff` | multy/src/common/Serializer.h:58-74 | no proper prefix of a frame is accepted, if and only if the length did not wrap or wrapped to zero |
| `Receiver.DataHandler.Write` | multy/src/Network/DataHandler.h:39-85 | connection, disk and reply are what the bytes alone determine, whatever the shared decryptor did before |
| `Receiver.RefusalIff` | multy/src/Network/DataHandler.h:39-61 | it raises if and only if the bytes hold no whole non-empty frame, meets no writer if and only if data comes before a name, and a refusal or an unknown type changes no file |
| `Receiver.DispatchByType` | multy/src/Network/DataHandler.h:46-86 | a message of type 1 opens its file, emptied, one of type 2 goes to the end of the open file, any other does nothing |
| `Receiver.HandleIsLocal` | multy/src/Network/DataHandler.h:63-72 | a handler sees and changes nothing outside its own folder |
| `Receiver.FolderName` | multy/src/Network/DataHandler.h:71 | a connection's folder is "client_" and its number in decimal, most significant digit first and without leading zeros |
| `Receiver.FoldersDistinctIff` | multy/src/Network/DataHandler.h:71 | two connections share a folder name if and only if they share a number |
| `Receiver.ConnectionFoldersIff` | multy/src/Network/TCPServer.h:33-37 | two accepted connections share a folder if and only if a multiple of 2^64 lies between them |
| `Receiver.TCPServer.Accept` | multy/src/Network/TCPServer.h:33-37 | the next connection gets the next number and a fresh handler on the shared decryptor |
| `Receiver.TCPServer.DispatchOne` | multy/src/Network/TCPConnection.h:52-64 | one socket read reaches its handler; every other connection keeps its state although the decryptor is shared |
| `Receiver.TCPServer.Run` | multy/src/Network/TCPServer.h:31-57 | the event loop from its start, accepts and reads interleaved in any order, ends at the first failure, and leaves handlers and disk as specified |
| `Receiver.FailureEnds` | multy/src/Network/NetworkTask.cpp:56-66 | what comes after a failed delivery is not looked at |
| `Receiver.Isolation` | multy/src/Network/TCPServer.h:33-56 | whatever the interleaving, each connection stands where its own frames, of the deliveries made, would have brought it alone |
| `Survival.SurvivesIff` | multy/src/Network/NetworkTask.cpp:48-66 | for every interleaving, no delivery fails if and only if each is a whole non-empty frame, and each data frame comes after a name on its connection; then the connections with an open file are those that sent a name |
| `Survival.SurvivesIffAllFineAlone` | multy/src/Network/NetworkTask.cpp:48-66 | no delivery fails if and only if none would with every connection on a server of its own |
| `Survival.InOrderIsolation` | multy/src/Network/TCPServer.h:33-56 | on such deliveries each connection stands where all of its own frames would have brought it alone |
| `Survival.StopsAtFirstOutOfOrder` | multy/src/Network/NetworkTask.cpp:56-66 | otherwise files and open writers stay for good as they were before the first delivery out of order |
| `Survival.OneStopsAnother` | multy/src/Network/DataHandler.h:39-61 | after one bad delivery a client on another connection, all of whose frames arrive, has no file, though alone it would have it whole |
| `Survival.BadDeliveries` | multy/src/Network/DataHandler.h:39-61 | a cut frame and a data frame without a name are such deliveries, for every key, IV and payload |
| `Survival.NamelessClientEndsServer` | multy/src/common/FileNameTransferTask.h:31-39 | a client without a name sends its data all the same, and that ends the server |
| `Transfer.FrameTypes` | multy/src/common/DataType.h:5-10 | a client's first frame starts with the byte 1, every later one with 2 |
| `Transfer.PartialFrameRefused` | multy/src/Network/DataHandler.h:41-45 | a cut frame raises and leaves every file and the open writer as they were |
| `Transfer.FrontArrives` | multy/src/common/FileTransferTask.h:27-31 | every front of a client's frames is handled without fail and leaves the matching front of the file |
| `Transfer.EndToEnd` | multy/src/common/FileTransferTask.h:21-36 | for every name, file and draws of the IV, the frames delivered one by one leave the source's contents, raise nothing and change no other file |
| `Transfer.NothingFails` | multy/src/Network/DataHandler.h:39-61 | however the frames of many clients interleave, no delivery fails |
| `Transfer.ConcurrentTransfers` | multy/src/Network/TCPServer.h:33-56 | however they interleave, a client whose frames are all delivered has exactly its file in its folder |
| `Transfer.FileDataSegmentReader.Read` | multy/src/FileStream/FileDataSegmentReader.h:47-50 | the frame of the next chunk, nothing at the end of the file |
| `Transfer.RunSegmentTransfer` | multy/src/common/FileDataTransferTask.h:44-51 | the producer loop over packed chunks writes every remaining chunk's frame in order, and then stops, once |
| `Transfer.RunFileTransfer` | multy/src/common/FileTransferTask.h:21-36 | writes exactly the client's frames, name first, or without it if there is no name, and then stops, once |

## Left out

- A data frame before any name is called through a null writer, which C++ leaves undefined: the model takes it for the end of the server (`NoWriter`), like an exception.
- Command line, factories, `main`, logging, signal handlers: wiring without deep properties.
- Sockets, resolving and `TCPClient`: one socket read is taken to deliver one frame; what a read split differently does is covered only by the partial-frame results. Failed or closed connections are not modelled.
- The block cipher, random IV generation and secrecy: the cipher is an arbitrary function of a block, the IVs are inputs.
- Real files and paths: files are byte sequences, a sent name becomes a file name by an arbitrary function, opening and writing a file never fail, folders start empty.
- Weak memory: steps interleave sequentially consistently, also for the flags, which the code accesses with acquire and release.
- Error paths that call `Stop` on the readers, or `Stop` of the producer after an exception: runs without exceptions only.
- Left-over named semaphores and the role choice by named mutex in `MultiProcessTask`: the three semaphores start fresh.
- Memory pages: a view longer than the slot has become shows zeros beyond the slot's end, as it does within one page of memory; the program's chunks of 4096 bytes do not exceed a page. Mapping and truncating never fail.
- HandoffLiveness.FairRunsSettle: says nothing about the contents of a disturbed file beyond its size, because `HandoffFile.FileBytes` does, for every schedule.
- Receiver.TCPServer.Run: covers fewer than 2^64 connections, so that no number is given out twice; what happens to the folders beyond that is `Receiver.ConnectionFoldersIff`.
- Wrap-around of `size_t` indices: head plus a size stays below twice the capacity, which any allocatable buffer keeps far below 2^64, so indices are unbounded naturals. Capacity 0, where the code divides by zero, is excluded.
- Chunk sizes of 0 in the threaded and process models: the factory always passes 4096. `Chunking.ChunksLosslessIff` covers 0 for the reader itself.
- Ring.CircularBuffer.SetHead: says nothing about the stored queue when asked to advance beyond it, because `BufferReader` only ever advances by what it has read.
- Ring.CircularBuffer.Index: says nothing about slots outside the stored queue, which hold whatever was left there.
- `SafeWriteDataAccess`, `SafeReadDataAccess`, `SharedWriteDataAccess` and `SharedReadDataAccess` are program points of the two step machines, not classes of their own, since their meaning is in the interleaving.
