# File transfer over raw Ethernet: a verified model

The program sends files between two hosts of a local network in raw Ethernet frames. A sender keeps a window of
sixteen chunks in flight, each with a timer and a retry limit; a receiver writes the chunks into a sparse temporary
file in whatever order they come, acknowledges the least chunk it lacks, and moves the file to its destination once
its hash is right. Every frame passes through three layers: key=value text with binary framing, a keystream cipher
with a message authentication code, and an Ethernet header with a protocol header and a CRC-32. This project models
all of that in Dafny and proves what the parts promise, and what they promise together.

Check the whole project with `dafny verify dfyconfig.toml`.

## How the model is built

* **The window and the receiver as values.** `SendWindow` and `ReceiveSlot` say what each region under a context's
  lock does to the sender's state and to the receiver's context, temporary file and destination. `Reassembly` says what
  seek-and-write of chunks leaves in a file.
* **The classes.** `SenderNode`, `SenderThreads` and `ReceiverNode` hold FileSendCtxSchema, ThreadManager,
  FileRcvCtxSchema and FileReceiver as classes whose methods change fields, dictionaries, files and the outgoing queue.
  Each method is proved equal to the functions above: new state and queued frames, in order.
* **The protocol.** `Protocol` is a transition system of both hosts over a network that loses, repeats and reorders
  messages at will but does not forge them: everything ever queued stays in a log, and any logged message may arrive at
  any time, any number of times. Each locked region is one event; what happens between two regions of a thread, such as
  the completion test of the pump after its locked region or the commit after the second region of `_on_data`, is an
  event of its own, so the threads interleave freely. The invariant `Protocol.Inv` has six parts, each kept by every
  event; `ProtocolTheorems`, `ProtocolCommits` and `ProtocolResets` state what follows for every run.
  `ProtocolCompletes` shows that every file has a run that brings it over, `ProtocolReach` and `ProtocolLosses` from
  which reachable states one still can, and `ProtocolLimits` that the limit on the length of runs is exact.
  `ProtocolHandshake` is about META and its repetition, `ProtocolTiming` about the time between two copies of a chunk.
* **The wire.** `Payloads`, `Security` and `Frames` are the three layers, on bytes; `Crc32`, `KeyMaterial`, `Mac`,
  `KeyValue`, `Text`, `Utf8` and `Xor` are what they rest on; `CrcDivision` ties the checksum to division by its
  generator. HMAC-SHA256 is any function to 32 bytes; the file hash is any
  function to a string. `EndToEnd` joins them to the classes: the frame of a message, protected, sent, padded, received
  and parsed, does to the other host what the protocol says the arrival of that message does. `Dispatching` adds the
  table of handlers by message type, and states the same for whole hosts and the protocol's own events.
* **Word wrap.** `WordWrap` is `MessagesView._wrap` with its cache, for any function that gives the width of a text.

## Findings

* **Completion does not mean committed.** The receiver queues its last ACK before it compares the hash and moves the
  file. So the sender may declare the transfer complete while the file is not yet at its destination
  (`ProtocolExamples.CompleteBeforeCommit`). What it must wait for is the receiver's ok FIN: in every run the file is
  committed exactly when that has been queued (`ProtocolCommits.CommittedIffReported`).
* **A file of no chunks is complete at once**, before its META has been acknowledged or even queued
  (`ProtocolCommits.CompleteUnannounced`). Completion tells the sender something in every run exactly when the file has
  at least one chunk (`ProtocolCommits.ReliableIffChunks`).
* **A late META can end a transfer.** It empties the temporary file and the set of received chunks, while the sender
  never sends an acknowledged chunk again; `ProtocolExamples.LateMetaResets` is a run that gets there. A chunk lost in
  this way stays missing exactly as long as no copy of it arrives, whatever METAs and other chunks do
  (`ProtocolResets.ResetStarvesIff`), and only copies that were in the network already can arrive
  (`ProtocolResets.OnlyOldCopies`). As long as none does, a file not committed before is not committed, is not declared
  complete, and the transfer fails within as many patient regions of the pump as its window has turns left, and one
  more (`ProtocolResets.ResetEndsInError`); `ProtocolLimits.LateMetaFails` is a run that fails after exactly as many.
  When nothing is in flight and everything queued so far is lost, a transfer can still be committed exactly if the
  receiver has every chunk the sender has seen acknowledged (`ProtocolLosses.CommitsAnewIff`).
* **Some names can never be sent.** file_id begins with the file's name, and both ends strip what they parse. A name
  that begins with white space or contains a line separator gives an identifier under which no ACK is ever found, so
  the sender waits for META to be acknowledged and gives up; with every other name, and a relative path that is one line
  if there is one, the handshake succeeds (`Payloads.HandshakeReturnsIff`). A line separator in the relative path can
  take down a file with the best of names: what follows it is read as another field
  (`Payloads.PathBreaksHandshake`).
* **Addresses must be canonical.** An address that is not six two-digit lower-case octets with colons does not come
  back as it was written, and the address is part of the authenticated data (`Security.TransmitIff`).
* **Transfers interfere through their paths.** The temporary file of "x" is "x.part". So a META for "x" empties the
  file under another context for "x", which keeps believing in its chunks, and it empties a file another transfer has
  committed as "x.part" (`ReceiverNode.MetaDestroys`). `ReceiverNode.MetaUnnoticedIff` and
  `ReceiverNode.DataUnnoticedIff` say exactly when another transfer notices nothing; where paths are kept apart, every
  transfer fares as if it were alone (`ReceiverIsolation.EachAsIfAlone`), and no destination holds anything but what
  was there before or its own source (`ReceiverIsolation.EveryDestinationSafe`).

## Model

| member | source | states |
|---|---|---|
| `Protocol.InitialInv` | src/file_transfer/schemas/send_ctx.py:15-25 | the initial fields satisfy the whole invariant |
| `Protocol.SenderStep` | src/core/managers/service_threads.py:139-200 | every step keeps the window's shape, and the sender's log holds only its own META, FIN and chunks below next_to_send |
| `Protocol.TrafficStep` | src/core/managers/service_threads.py:163-200 | every step keeps the exact count of how often each unacknowledged chunk was queued, and the budget of DATA frames |
| `Protocol.FinStep` | src/core/managers/service_threads.py:153-178 | every step keeps: at most one FIN from the pump, and only with `finished` set or about to be |
| `Protocol.SlotStep` | src/file_transfer/file_receiver.py:134-258 | every step keeps the temporary file equal to what the received chunks determine, the cursor at the least missing chunk, every ACK within what some epoch held, and `last_acked + 1` below that |
| `Protocol.OrderStep` | src/file_transfer/file_sender.py:66-83 | every step keeps: each DATA in the log comes after a META |
| `Protocol.Step` | src/core/managers/service_threads.py:139-200 | the six parts of the invariant together survive every event of either host and the network |
| `ProtocolTheorems.Always` | src/file_transfer/file_sender.py:43-142 | the invariant holds in every state of every run |
| `ProtocolTheorems.ContentSafety` | src/file_transfer/file_receiver.py:237-258 | in every run a committed file is the source byte for byte, an ok FIN from the receiver means it is committed, and no hash mismatch or range error is ever reported |
| `ProtocolTheorems.DestinationStays` | src/file_transfer/file_receiver.py:134-160 | once committed, the destination holds the source for the rest of the run, whatever METAs arrive |
| `ProtocolTheorems.BestWasHeld` | src/file_transfer/file_receiver.py:211-216 | the largest prefix ever acknowledged was really held by one receiver context, for every run |
| `ProtocolTheorems.CompletionSound` | src/core/managers/service_threads.py:153-157 | when the pump declares a file of at least one chunk complete, META was acknowledged, some epoch had received every chunk, and the file is committed or the dispatcher has a full context it is about to commit; between two frames it is committed |
| `ProtocolCommits.CommittedIff` | src/file_transfer/file_receiver.py:231-240 | in every run the destination holds the source exactly when an earlier event closed a full context or, without chunks, was a META; otherwise there is none |
| `ProtocolCommits.CommitStepIff` | src/file_transfer/file_receiver.py:145-160 | exactly those events commit |
| `ProtocolCommits.CommittedIffReported` | src/file_transfer/file_receiver.py:237-250 | in every run the destination holds the source exactly when the receiver has queued an ok FIN, which is what the sender can go by |
| `ProtocolCommits.OneCommitPerContext` | src/file_transfer/file_receiver.py:231-258 | in every run with a file of at least one chunk the ok FINs of the receiver, and an open context, number at most the contexts ever opened |
| `ProtocolCommits.OpenContext` | src/file_transfer/file_receiver.py:203-235 | in every run an open context has its cursor at the least missing chunk, holds only chunks of the file, and between two frames lacks one |
| `ProtocolCommits.ContextEndsIff` | src/file_transfer/file_receiver.py:231-258 | in every run a context ends exactly when its close finds every chunk received |
| `ProtocolCommits.CompleteUnannounced` | src/core/managers/service_threads.py:153-157 | a run in which a file without chunks is declared complete although no META was queued and nothing was committed |
| `ProtocolCommits.ReliableIffChunks` | src/core/managers/service_threads.py:153-157 | completion implies an acknowledged META and, between two frames, a committed file in every run exactly when the file has a chunk |
| `ProtocolTheorems.NothingTakenBack` | src/file_transfer/file_sender.py:115-122 | over any stretch of any run `meta_acked` and `finished` stay set, `last_acked` and `next_to_send` do not fall, queued frames stay queued, a destination stays |
| `ProtocolTheorems.WindowShape` | src/core/managers/service_threads.py:188-200 | in every reachable state the in-flight keys are exactly the integers between `last_acked` and `next_to_send`; with `acked` they partition the chunks sent; at most sixteen; never beyond total |
| `ProtocolTheorems.BoundedTraffic` | src/core/managers/service_threads.py:163-182 | in every run each chunk is queued at most 1 + max_retries times, DATA at most total * (1 + max_retries) times, and the pump queues at most one FIN |
| `ProtocolTheorems.SilentAfterFinish` | src/core/managers/service_threads.py:142-150 | once finished and out of the locked region, no DATA is queued in the rest of the run |
| `ProtocolTheorems.HandshakeFirst` | src/file_transfer/file_sender.py:69-83 | every DATA frame has a META before it in the log, and the receiver had opened a context before it was queued |
| `SendWindow.ServiceTurns` | src/core/managers/service_threads.py:163-200 | no region adds turns; one that finds everything expired uses one up, finishes the transfer or finds it complete |
| `SendWindow.AcknowledgeTurns` | src/file_transfer/file_sender.py:115-122 | no ACK adds turns, although it lets new chunks into the window |
| `ProtocolTheorems.PotentialStep` | src/core/managers/service_threads.py:139-200 | no event raises the potential, and a pump that finds every in-flight entry expired lowers it |
| `ProtocolTheorems.TerminatesFrom` | src/core/managers/service_threads.py:163-182 | from any point of any run a transfer outlives at most as many patient regions as its window has turns left, and with one more it ends |
| `ProtocolTheorems.Terminates` | src/core/managers/service_threads.py:163-182 | no run has more than 11 * ceil(total / 16) + 1 patient regions, and the transfer ends with the last of them; a file without chunks has none |
| `ProtocolLimits.LimitReached` | src/core/managers/service_threads.py:163-182 | for every file with chunks some run has exactly that many |
| `ProtocolLimits.LateMetaFails` | src/file_transfer/file_receiver.py:134-178 | after a repeated META a run goes on without any message to an error, after exactly as many patient regions as ResetEndsInError allows |
| `ProtocolTheorems.PassProgress` | src/core/managers/service_threads.py:139-158 | one undisturbed pass over an announced transfer with everything expired finishes it or lowers the measure: no unfinished state is stuck |
| `ProtocolCompletes.TheRest` | src/core/managers/service_threads.py:139-200 | from any reachable state in which both sides agree on the first k chunks, the run can go on to a committed file, with new messages only |
| `ProtocolCompletes.EveryFileArrives` | src/file_transfer/file_sender.py:43-83 | for every file of every length, empty ones included, there is a run that commits it and ends the transfer with an ok FIN |
| `ProtocolReach.LiveInvAlways` | src/file_transfer/file_sender.py:43-83 | in every run each chunk below next_to_send is in the log, META too once it was due, and the context is registered from its registration to the end |
| `ProtocolHandshake.MetaCount` | src/file_transfer/file_sender.py:66-77 | in every run META has been queued exactly as often as it was sent first or its timer ran out, and a META timeout exactly as often as the 30 seconds did |
| `ProtocolHandshake.MetaStops` | src/file_transfer/file_sender.py:71-75 | once META is acknowledged or the transfer finished, META is queued at most once more in the rest of the run |
| `ProtocolHandshake.ReturnsSettled` | src/file_transfer/file_sender.py:71-81 | in every run `send_file` has returned only if META is acknowledged or the transfer finished |
| `ProtocolReach.CommitReachableIff` | src/core/managers/service_threads.py:139-200 | a reachable state has a continuation, old messages included, that commits the file exactly when it is committed already, has no chunks, is unfinished, or has sent every chunk |
| `ProtocolLosses.LostForGood` | src/file_transfer/file_receiver.py:134-178 | with an acknowledged chunk lacking, no continuation without the DATA queued so far commits the file |
| `ProtocolLosses.CommitsAnewIff` | src/core/managers/service_threads.py:188-200 | from an announced, unfinished state with nothing in flight, a continuation without any message queued so far commits the file exactly when every acknowledged chunk is in the open context or the file is committed |
| `ProtocolHandshake.UnackedAnewIff` | src/file_transfer/file_sender.py:66-83 | from every reachable state that is unacknowledged and unfinished, a continuation without any message queued so far commits the file exactly when it is committed, `send_file` is not giving up, or an ACK is about to be applied: the repetition of META makes up for any loss |
| `ProtocolResets.ServiceQueuesAbove` | src/core/managers/service_threads.py:163-200 | the pump never queues an acknowledged chunk again |
| `ProtocolResets.LackStep` | src/file_transfer/file_receiver.py:134-258 | of all events only the arrival of a copy ends the lack of an acknowledged chunk; without one nothing is committed |
| `ProtocolResets.ResetStarvesIff` | src/file_transfer/file_receiver.py:134-178 | over any stretch of any run an acknowledged chunk that a META took away stays missing exactly when no copy of it arrives, whatever else does |
| `ProtocolResets.OnlyOldCopies` | src/core/managers/service_threads.py:163-200 | a copy that arrives was in the network before the chunk was taken away |
| `ProtocolResets.WhyEnded` | src/file_transfer/file_sender.py:76-81 | in every run a finished transfer was declared complete, queued a timeout or a META timeout, or is committed |
| `ProtocolResets.ResetEndsInError` | src/core/managers/service_threads.py:163-182 | while the chunk is withheld, a file not committed before is neither committed nor declared complete and can finish only with an error FIN, which it has queued once one more patient region has passed than the window had turns left |
| `ProtocolExamples.CompleteBeforeCommit` | src/file_transfer/file_receiver.py:216-240 | a run in which the sender declares completion and the destination does not exist yet |
| `ProtocolExamples.LateMetaResets` | src/file_transfer/file_receiver.py:163-178 | a run in which a repeated META takes away an acknowledged chunk |
| `SendWindow.ShapePartitions` | src/core/managers/service_threads.py:188-200 | the ordered dictionary of the window in terms of sets: keys and acknowledged chunks partition what was sent |
| `SendWindow.AcknowledgeKeepsShape` | src/file_transfer/file_sender.py:115-122 | a cumulative ACK within what was sent cuts a prefix off the window and keeps it consecutive |
| `SendWindow.StaleAcknowledge` | src/file_transfer/file_sender.py:115-122 | an ACK for what is acknowledged already changes nothing but the handshake flag |
| `SendWindow.AcknowledgeProgress` | src/file_transfer/file_sender.py:115-122 | an ACK raises neither the measure nor the budget |
| `SendWindow.AcknowledgeSends` | src/file_transfer/file_sender.py:118-122 | what remains in flight after an ACK keeps its retry count |
| `SendWindow.ServiceKeepsShape` | src/core/managers/service_threads.py:145-150 | the locked region keeps the shape, leaves acknowledged chunks alone, queues only chunks of the window and at most a timeout, and sends nothing new once finished |
| `SendWindow.ServiceCount` | src/core/managers/service_threads.py:163-200 | a chunk is queued exactly as often as its retry counter and next_to_send say, at most 1 + max_retries times |
| `SendWindow.ServiceCost` | src/core/managers/service_threads.py:163-200 | every DATA frame costs exactly one unit of the budget; a timeout FIN comes at most once and finishes the context |
| `SendWindow.ServiceProgress` | src/core/managers/service_threads.py:163-200 | the measure never rises; with everything expired it falls, or the transfer is finished or complete |
| `SendWindow.YoungOnlyFills` | src/core/managers/service_threads.py:163-200 | with every entry younger than 0.6 seconds the region sends nothing again and only fills the window |
| `SendWindow.SentAgainIff` | src/core/managers/service_threads.py:163-186 | an entry is queued again, once, with the clock's reading as its new stamp and one retry more, exactly when it is at least 0.6 seconds old and neither it nor an earlier one makes the sender give up; otherwise it stays as it was |
| `SendWindow.GaveUpIff` | src/core/managers/service_threads.py:166-179 | the sender gives up, and queues a timeout, exactly when an entry at least 0.6 seconds old has had ten retries |
| `SendWindow.ServiceStamp` | src/core/managers/service_threads.py:160-200 | the region queues a chunk at most once and then stamps it with the reading of the clock; any other entry keeps its stamp |
| `ProtocolTiming.OnlyRegionsQueue` | src/core/managers/service_threads.py:145-150 | in every run no event but the pump's locked region queues a chunk |
| `ProtocolTiming.CopiesApart` | src/core/managers/service_threads.py:160-186 | in every run in which the clock does not go back, two copies of one chunk are queued at least 0.6 seconds apart |
| `Reassembly.InRange` | src/file_transfer/file_sender.py:52 | an index is below the chunk count exactly when its chunk starts inside the file |
| `Reassembly.ChunksJoin` | src/file_transfer/handlers/file_transfer_handler.py:31-33 | the first n chunks are the first n * chunk_size bytes; all of them concatenate to the source |
| `Reassembly.ChunkShape` | src/file_transfer/handlers/file_transfer_handler.py:31-33 | every chunk in range is non-empty, at most chunk_size long, and is the source at its offset |
| `Reassembly.WriteChunk` | src/file_transfer/file_receiver.py:207-209 | writing one more chunk, new or repeated, keeps the file as the received set determines it, holes zero-filled |
| `Reassembly.Determined` | src/file_transfer/file_receiver.py:206-214 | the content is determined by the set of chunks alone |
| `Reassembly.OrderIrrelevant` | src/file_transfer/file_receiver.py:206-214 | any two histories of writes over the same chunks end in the same file |
| `Reassembly.AllChunksGiveSource` | src/file_transfer/file_receiver.py:231-239 | with every chunk received the file is the source |
| `Reassembly.EqualsSourceIff` | src/file_transfer/file_receiver.py:206-239 | exactly when an incomplete history already equals the source: the last chunk was written and all missing chunks are zeros |
| `ReceiveSlot.FirstMissingIsLeast` | src/file_transfer/file_receiver.py:211-214 | the cursor loop stops at the least natural number not received |
| `ReceiveSlot.ReceiveKeepsConsistent` | src/file_transfer/file_receiver.py:203-216 | receiving a chunk in range keeps the received set in range and the cursor least, and never lowers the cursor |
| `ReceiveSlot.FullIffNothingMissing` | src/file_transfer/file_receiver.py:231-235 | the test by cardinality holds exactly when next_needed is total and exactly when every chunk is there |
| `ReceiveSlot.CommitIff` | src/file_transfer/file_receiver.py:237-258 | the temporary file becomes the destination, with an ok FIN, exactly when its digest is the announced one letter for letter up to ASCII case; otherwise both files stay and the mismatch is reported |
| `ReceiveSlot.MetaRefusedIff` | src/file_transfer/file_receiver.py:120-123 | a META is refused for its ranges, with nothing changed, exactly when its chunk size is not positive or its size or total is negative |
| `SenderNode.PassIsResend` | src/core/managers/service_threads.py:163-186 | marking entries of the live dictionary while walking a snapshot of it is the same as rebuilding it entry by entry |
| `SenderNode.RetransferExpiredLoop` | src/core/managers/service_threads.py:163-186 | the loop's new state and queued frames are those of the specification |
| `SenderNode.MarkAt` | src/core/managers/service_threads.py:160-161 | marking an existing key replaces its entry and keeps its place in the dictionary |
| `SendWindow.MarkNew` | src/core/managers/service_threads.py:160-161 | marking a new key appends it to the dictionary |
| `SenderNode.RefillWindowLoop` | src/core/managers/service_threads.py:188-200 | the loop's new state and queued frames are those of the specification |
| `SenderNode.VisitContext` | src/core/managers/service_threads.py:141-158 | one visit of the pump: locked region only once META is acknowledged, then the completion test, FIN and `finished` |
| `SenderNode.DropIsFilter` | src/file_transfer/file_sender.py:118-121 | popping keys while walking a snapshot of them is the same as filtering the dictionary |
| `SenderNode.AcknowledgeLocked` | src/file_transfer/file_sender.py:115-122 | the locked region of `_on_ack` is the specified acknowledgement, for any next_needed at all |
| `SenderThreads.PumpIsIndependent` | src/core/managers/service_threads.py:139-158 | in any order of the contexts, the frames about each are those it would have queued alone, so orders differ only in interleaving |
| `SenderThreads.RoundsArePumped` | src/core/managers/service_threads.py:139-158 | visiting one context after another leaves each as an independent visit would, and drops exactly the finished ones |
| `SenderThreads.HandlerMoves` | src/core/managers/service_threads.py:139-158 | an ACK, a FIN or a registration that comes between two contexts of a pump may be moved past the visits of all other contexts: same frames, same contexts |
| `SenderThreads.ThreadManager.Pump` | src/core/managers/service_threads.py:139-158 | the whole pump over the dictionary: contexts and queued frames afterwards |
| `SenderThreads.ThreadManager.OnAck` | src/file_transfer/file_sender.py:99-122 | an ACK frame changes the one unfinished context it names, or nothing |
| `SenderThreads.ThreadManager.OnFin` | src/file_transfer/file_sender.py:125-139 | a FIN frame finishes the one context it names, or nothing |
| `SenderThreads.ThreadManager.AddContext` | src/core/managers/service_threads.py:237-238 | the new context is registered under its own identifier and no other is touched |
| `SenderThreads.ThreadManager.SendFile` | src/file_transfer/file_sender.py:52-67 | a fresh context with the right chunk count is registered, and exactly its META is queued |
| `ReceiverNode.FileRcvCtx.Note` | src/file_transfer/file_receiver.py:211-214 | the set and the cursor afterwards |
| `ReceiverNode.FileReceiver.OnMetaFrame` | src/file_transfer/file_receiver.py:84-178 | every branch: missing, non-numeric, empty and out-of-range fields, refused path, empty file, new context; disk, contexts and frames afterwards |
| `ReceiverNode.FileReceiver.CommitFile` | src/file_transfer/file_receiver.py:237-258 | a matching hash moves the temporary file and reports ok, another one reports the mismatch and leaves the files alone; the context is gone |
| `ReceiverNode.FileReceiver.OnDataFrame` | src/file_transfer/file_receiver.py:181-258 | every branch, both locked regions, ACK, commit; disk, contexts and frames afterwards |
| `ReceiverNode.SlotsAreIndependent` | src/file_transfer/file_receiver.py:193-258 | work on one transfer leaves context and files of any other alone when their four paths differ |
| `ReceiverNode.MetaTouchesOne` | src/file_transfer/file_receiver.py:84-178 | a META frame changes nothing about any other transfer with other paths |
| `ReceiverNode.DataTouchesOne` | src/file_transfer/file_receiver.py:193-258 | a DATA frame changes nothing about any other transfer with other paths |
| `ReceiverNode.OutOfRangeIgnored` | src/file_transfer/file_receiver.py:193-204 | a chunk with an index outside the file, or with no total, changes nothing and is not answered |
| `ReceiverNode.IncompleteIgnored` | src/file_transfer/file_receiver.py:198-204 | a chunk whose header lacks its index or the total is ignored |
| `ReceiverNode.InRangeAnswered` | src/file_transfer/file_receiver.py:203-216 | a chunk in range, with the temporary file in place, is always answered, first by an ACK for the least chunk then missing |
| `ReceiverNode.UnnoticedIff` | src/file_transfer/file_receiver.py:134-136 | work on one transfer goes unnoticed by another exactly when it leaves the other's two files as they were |
| `ReceiverNode.MetaUnnoticedIff` | src/file_transfer/file_receiver.py:134-178 | for every announced META in range, exactly when another transfer notices nothing, in terms of the two destinations and what is on disk: equal destinations and x against x.part are the failing ones |
| `ReceiverNode.DataUnnoticedIff` | src/file_transfer/file_receiver.py:206-258 | the same for every accepted DATA frame, with the commit it may cause |
| `ReceiverNode.MetaDestroys` | src/file_transfer/file_receiver.py:134-136 | a META for x empties the temporary file under another context for x, which keeps its received set, and a file committed as x.part |
| `ReceiverIsolation.EachAsIfAlone` | src/file_transfer/file_receiver.py:84-258 | after any frames of any number of transfers with paths kept apart, a transfer's context and files, and the letters about it, are what its own frames alone would have made of them |
| `ReceiverIsolation.EveryDestinationSafe` | src/file_transfer/file_receiver.py:84-258 | for any number of transfers with paths apart, whatever of their META and DATA frames arrive, in any order and number, as bytes: every destination holds what was there before or its own source, and every answer is an ACK or an ok FIN |
| `KeyValue.ParsePayload` | src/file_transfer/helpers/parse_payload.py:4-13 | the loop over lines is the specified parse: first equals sign splits, both sides stripped, later keys win |
| `KeyValue.RoundTripIff` | src/file_transfer/handlers/file_transfer_handler.py:14-16 | writing and parsing gives the same dictionary back exactly when no key has an equals sign and no key or value has a line separator or outer white space |
| `KeyValue.ParseStrips` | src/file_transfer/helpers/parse_payload.py:4-13 | whatever keeps its lines and keys apart is parsed to the same keys with stripped values |
| `Payloads.DataRoundTripIff` | src/file_transfer/handlers/file_transfer_handler.py:29-44 | the receiver reads file_id, idx, total and the chunk's bytes back, for every chunk, exactly when file_id is non-empty, one line and stripped |
| `Payloads.BlankAfterHeader` | src/file_transfer/file_receiver.py:182-190 | the first empty line is the one after the header, whatever bytes follow |
| `Payloads.MetaRoundTripIff` | src/file_transfer/handlers/file_transfer_handler.py:61-73 | the receiver reads exactly what META announced, numbers included, exactly when the four texts survive stripping and splitting |
| `Payloads.MetaUnderstood` | src/file_transfer/file_receiver.py:84-123 | what META announces when its texts are single lines: each stripped, or a refusal when one of the three required ones is nothing but white space |
| `Payloads.AckRoundTripIff` | src/file_transfer/file_receiver.py:29-32 | an ACK is read back exactly when its file_id is usable |
| `Payloads.FinText` | src/file_transfer/handlers/file_transfer_handler.py:18-26 | a FIN's text: identifier, status, and the reason only if there is one, each on its line |
| `Payloads.AnnouncedIff` | src/file_transfer/file_receiver.py:86-118 | META is understood exactly when all six fields are present, three are integers and three are not empty; which of the three errors is reported otherwise, and when |
| `Payloads.AckIff` | src/file_transfer/file_sender.py:99-113 | an ACK is understood exactly when it decodes and names a transfer; without next_needed it counts as the ACK for 0, which acknowledges META |
| `Payloads.DataIff` | src/file_transfer/file_receiver.py:189-202 | a DATA header is understood exactly when it names a transfer and its numbers are integers; a missing one is read as -1 |
| `Payloads.FinRoundTripIff` | src/file_transfer/handlers/file_transfer_handler.py:18-26 | a FIN names its transfer exactly when the file_id is usable |
| `Payloads.ReadIdsUsable` | src/file_transfer/file_sender.py:99-106 | whatever is read as an identifier from any payload is one line and stripped |
| `Payloads.FileIdUsableIff` | src/file_transfer/file_sender.py:53 | the identifier made from a name is usable exactly when the name is one line and does not begin with white space |
| `Payloads.FileIdIff` | src/file_transfer/file_sender.py:53 | two files share an identifier exactly when their names and the first twelve digits of their hashes are equal |
| `Payloads.HandshakeReturnsIff` | src/file_transfer/file_sender.py:69-75 | the ACK to a transfer's own META finds its context, so that the file can be sent at all, exactly when the name is not empty, is one line and does not begin with white space; for every relative path that is one line |
| `Payloads.PathBreaksHandshake` | src/file_transfer/handlers/file_transfer_handler.py:70-72 | a relative path with a line break and "total=" followed by no number makes META unreadable, whatever the name |
| `Payloads.DataPayloadLength` | src/file_transfer/handlers/file_transfer_handler.py:35-42 | a DATA payload is 35 bytes plus name, digits of both numbers and chunk |
| `Text.StripPart` | src/file_transfer/helpers/parse_payload.py:12 | strip leaves a stripped part, and leaves exactly the stripped strings unchanged |
| `Text.SplitFirst` | src/file_transfer/helpers/parse_payload.py:6 | splitting recovers a line without separators before a newline |
| `Text.SplitAtBreak` | src/file_transfer/helpers/parse_payload.py:6 | every line break ends a line |
| `Text.SplitAtPair` | src/file_transfer/helpers/parse_payload.py:6 | a carriage return with a newline is one line break |
| `Text.DigitsOfDecimal` | src/file_transfer/file_receiver.py:106-109 | decimal digits are read back as the number |
| `Text.ParseIntIff` | src/file_transfer/file_receiver.py:106-109 | what counts as an integer: digits with single underscores between them, a sign or none, white space around; and its value |
| `Utf8.RoundTrip` | src/file_transfer/handlers/file_transfer_handler.py:16 | decoding undoes encoding |
| `Utf8.DecodeIsInverse` | src/file_transfer/file_sender.py:100 | what decodes at all encodes back to the same bytes: the strict decoder |
| `Frames.DecodeOfCreated` | src/core/helpers/frame_decoder.py:9-59 | what decoding any created frame gives, with any padding behind it and any payload_len |
| `Frames.DecodeCreateIff` | src/core/helpers/frame_creator.py:18-34 | decoding returns the created frame, checksum filled in, exactly when both addresses are canonical and payload_len is the payload's length (or more, with no padding) |
| `Frames.DroppedIff` | src/core/helpers/frame_decoder.py:25-47 | a frame is dropped exactly when it is shorter than its headers, its checksum over header and payload is wrong, or its type is none of the seven; and which of these it is |
| `Frames.CorruptionDetected` | src/core/helpers/frame_decoder.py:34-43 | damage within four consecutive checksummed bytes, payload_len and checksum intact, is always rejected |
| `Frames.HeaderReadBack` | src/core/enums/formats.py:5-22 | the three header fields are read back from ten bytes in network order, and each message type from its number |
| `Frames.HeaderStart` | src/core/enums/enums.py:3-10 | a created frame begins with both addresses and has the number of its type, 1 to 7, at bytes 14 and 15 |
| `Frames.NameOfNumber` | src/core/enums/enums.py:3-10 | the text of each message type, by its number |
| `Crc32.BurstDetected` | src/core/helpers/frame_creator.py:20-22 | two inputs of one length that differ only within four consecutive bytes have different CRC-32 (section 8 of RFC 1952) |
| `CrcDivision.CrcIff` | src/core/helpers/frame_creator.py:20-22 | a number is the CRC-32 exactly when it is the complement of the remainder that division of the message, in reflected order, preset with ones and shifted by 32, by x^32 + x^26 + x^23 + x^22 + x^16 + x^12 + x^11 + x^10 + x^8 + x^7 + x^5 + x^4 + x^2 + x + 1 leaves (section 8 of RFC 1952) |
| `Crc32.RegisterWord` | src/core/helpers/frame_creator.py:22 | feeding bytes one by one is XORing them in as one number and stepping all their bits |
| `Crc32.BitsLinear` | src/core/helpers/frame_creator.py:22 | the bit step is linear over XOR |
| `Crc32.RegisterInjective` | src/core/helpers/frame_creator.py:22 | different registers stay different under the same input |
| `Mac.RoundTripIff` | src/core/helpers/frame_decoder.py:15-16 | an address comes back as written exactly when it is canonical |
| `Mac.ReadsOctets` | src/core/helpers/frame_creator.py:29-30 | up to six octets are packed whatever the case of their digits, and missing ones are zeros at the end |
| `Security.AcceptProtected` | src/security/security_manager.py:27-110 | acceptance undoes protection for every key, nonce and payload, whatever checksum the frame has meanwhile been given |
| `Security.AcceptedIff` | src/security/security_manager.py:68-110 | a frame is accepted as f exactly when it is what protecting f gives with some nonce, payload_len and checksum aside |
| `Security.ClearIff` | src/security/security_manager.py:21-30 | exactly the two kinds of discovery frame are left as they are, on the way out and on the way in |
| `Security.ProtectedLayout` | src/security/security_manager.py:27-66 | byte by byte what a protected payload is: version, nonce, payload XOR key stream, 16 bytes of HMAC over header text, nonce and ciphertext, with the keys for "enc" and "mac" |
| `Security.AssociatedIff` | src/security/security_handler.py:23-26 | two frames with canonical addresses have the same authenticated text exactly when they agree in addresses, EtherType, type and sequence number |
| `Xor.Bitwise` | src/security/security_manager.py:45 | bit k of a XOR b is set exactly when the bits k of a and b differ |
| `Security.TransmitIff` | src/core/managers/service_threads.py:80-87 | protect, create, pad, decode, accept is the identity on a protected frame exactly when addresses are canonical, numbers fit their fields, payload_len is the payload's length and no checksum was set |
| `Security.TransmitDiscoveryIff` | src/security/security_manager.py:21-30 | the same for discovery frames, which travel in the clear and return with the checksum filled in |
| `Security.TransmittedShape` | src/security/security_manager.py:96-110 | whatever is accepted has canonical addresses, no checksum and the right length |
| `KeyMaterial.Keystream` | src/security/security_handler.py:12-21 | the loop returns exactly nbytes, byte p being byte p % 32 of block p / 32, or fails where the counter no longer fits |
| `KeyMaterial.BlocksAreStream` | src/security/security_handler.py:12-21 | concatenated blocks are that stream |
| `KeyMaterial.StreamBlock` | src/security/security_handler.py:18 | block i is HMAC of the nonce and i as four octets, highest first |
| `KeyMaterial.StreamPrefix` | src/security/security_handler.py:21 | a shorter stream is a prefix of a longer one |
| `KeyMaterial.HkdfExpand` | src/security/security_handler.py:32-41 | the loop is the T(i) chain of section 2.3 of RFC 5869 up to 255 * 32 bytes and fails beyond |
| `KeyMaterial.HkdfKey` | src/security/security_handler.py:43-46 | a key of 32 bytes is HMAC(HMAC(salt, secret), info and 1), with 32 zeros for an empty salt (sections 2.2 and 2.3 of RFC 5869) |
| `KeyMaterial.ExpandPrefix` | src/security/security_handler.py:32-41 | asking for more key material does not change what comes first |
| `Posting.Outbox.Send` | src/core/managers/service_threads.py:220-221 | the k-th frame queued carries sequence number k + 1 in 16 bits and the letter's address, type and payload |
| `EndToEnd.LetterArrives` | src/core/managers/service_threads.py:50-87 | any queued letter between canonical addresses arrives as the frame that was queued, for every nonce and padding |
| `EndToEnd.MetaDelivered` | src/file_transfer/file_receiver.py:84-178 | the payload of a transfer's META, handed to `_on_meta`, does to the receiver what the protocol's META event does |
| `EndToEnd.DataDelivered` | src/file_transfer/file_receiver.py:181-258 | the payload of DATA, handed to `_on_data`, does what the protocol's two DATA events do, and is ignored where they ignore it |
| `EndToEnd.AckDelivered` | src/file_transfer/file_sender.py:99-122 | the payload of an ACK, handed to `_on_ack`, does what the protocol's ACK events do, to its own context only, and nothing to a finished or unknown one |
| `EndToEnd.FinDelivered` | src/file_transfer/file_sender.py:125-139 | the payload of a FIN, handed to `_on_fin`, does what the protocol's FIN event does, to its own context only |
| `Dispatching.MetaDispatched` | src/core/managers/service_threads.py:114-125 | a transfer's META, protected, sent, padded, received, accepted and dispatched by the type in its header, does to the receiving host exactly what the protocol's MetaArrives does, replies included, whatever other services have handlers there |
| `Dispatching.DataDispatched` | src/core/managers/service_threads.py:114-125 | the same for DATA, DataArrives and DataCloses |
| `Dispatching.AckDispatched` | src/core/managers/service_threads.py:114-125 | the same for ACK, AckArrives and AckApplies at the sending host; no other context changes |
| `Dispatching.FinDispatched` | src/core/managers/service_threads.py:114-125 | the same for FIN and FinArrives |
| `Dispatching.Routes` | src/file_transfer/file_receiver.py:25-26 | whichever of the two services are installed, each message type reaches its own handler |
| `Dispatching.OnTheWire` | src/core/helpers/frame_creator.py:26-34 | the bytes a letter is sent as have 5, 6, 4 or 7 as their type for META, DATA, ACK and FIN, and begin with the peer's address and the sender's |
| `Dispatching.Dispatcher.DispatchFrame` | src/core/managers/service_threads.py:119-125 | one round of the loop calls the handler registered for the frame's type on the contexts, files and queue of the host, or does nothing |
| `EndToEnd.VisitIsPass` | src/core/managers/service_threads.py:139-158 | a visit of the pump without interruption, to any registered context, is the sequence of the protocol's pump events |
| `EndToEnd.DataFrameFits` | src/app_server.py:190 | a protected DATA frame's Ethernet payload is 78 bytes more than name, digits and chunk, so a chunk of 1200 fits 1500 exactly when name and digits take at most 222 |
| `WordWrap.Lossless` | ui/components/messages.py:38-97 | the lines hold all characters of the body that are not white space, in order, and no others |
| `WordWrap.SplitIff` | ui/components/messages.py:55-61 | splitting gives the one list of parts without the separator that, joined by it, make up the text |
| `WordWrap.WrappedLines` | ui/components/messages.py:55-59 | what stands before and after a newline is wrapped by itself, so that empty lines stay |
| `WordWrap.ParagraphIffGreedy` | ui/components/messages.py:61-94 | the lines of a paragraph are exactly those of a greedy grouping of its words: a word is cut only if it fits no line by itself, any other group fits a line and would not with the next word |
| `WordWrap.GlueIsSpaced` | ui/components/messages.py:66 | a line holds its words in order with one blank between them; runs of blanks collapse |
| `WordWrap.Bounded` | ui/components/messages.py:62-94 | every line fits or has at most one character |
| `WordWrap.SegmentsIffGreedy` | ui/components/messages.py:76-89 | where longer texts are never narrower, the segments of a wide word are the one cut whose every piece is the longest that fits |
| `WordWrap.MessagesView.SearchLoop` | ui/components/messages.py:79-87 | the binary search is the specified one |
| `WordWrap.MessagesView.Wrap` | ui/components/messages.py:38-97 | with or without the cache the result is the same lines; cached entries stay true and are not lost |

## Left out

- SenderThreads.ThreadManager.SendFile: stops before the waiting loop of `send_file`; the loop, its META retries and its timeout are events of `Protocol` (TestLoop, MetaTimer, StartTimer, GiveUp) whose timers fire at any time, because nothing is claimed about wall-clock time.
- SenderThreads.ThreadManager.Pump: runs without interruption by other threads; handlers between two contexts are `SenderThreads.HandlerMoves`, and handlers and `send_file` inside one visit are events of `Protocol`.
- ReceiverNode.FileReceiver.OnDataFrame: runs its two locked regions back to back; `Protocol` has them as two events.
- ReceiverNode.FileReceiver.OnMetaFrame: takes the outcome of the path checks as a parameter, because sanitising and containment depend on the file system; file operations do not fail.
- Posting.Outbox.Send: builds and queues a frame in one step, and keeps the frames the sending thread has already taken, as a record; the program's threads number frames without a lock, so two may get the same number or be queued in the other order.
- Payloads.HandshakeReturnsIff: is stated for relative paths that are one line; of the others `Payloads.PathBreaksHandshake` gives those that break META, but some do no harm.
- ProtocolTheorems.ContentSafety: is about one transfer per file_id, with a source file that does not change and with a destination x where no other transfer has x, x.part or y with y.part = x; `ReceiverIsolation.EveryDestinationSafe` is the part of it that holds at a receiver with many such transfers.
- Protocol.Step: takes all transfers to go one way, from one host to the other; two hosts that send each other files under the same file_id are not modelled.
- Secrecy and unforgeability of the cipher; SHA-256 and HMAC are parameters.
- Rounding in clock readings: times are real numbers.
- ProtocolTiming.CopiesApart: assumes that the clock is not set back; the program reads the time of day.
- Non-ASCII digits in `int()`, and lone surrogates in names, which cannot be encoded.
- Messages and discovery frames that share the outgoing queue and its sequence numbers.
- Progress, start and finish events to the user interface, and the logging calls.
- WordWrap.MessagesView.Wrap: takes font identities to be stable, since the cache is keyed by the identity of a font object; the returned list is a value, so a caller that changes a cached list is not modelled.
- Raw sockets, threads and their start and stop, the scheduler, IPC, asyncio, configuration and drawing: input and output.
- Directory transfer beyond the relative path it puts into META, FileService, RosterService, Discovery and Messaging: they are outside the file-transfer protocol and the layers it uses.
