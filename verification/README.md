# A verified model of the card-game server framework

The repository is the networking and session framework of a card-game server, written in C++. This project models the
parts of it that compute something, and proves what they promise.

* **Intrusive circular lists** (`Rings`, `ListOps`, `ListRuns`). The list functions run on heap nodes with `next` and
  `prev`. A map from list heads to entry sequences says which lists the heap holds; each function is proved to turn
  the heap of one such map into the heap of another. The timers sit on top.
* **Packets** (`Bytes`, `Wire`, `TcpFrames`, `WsFrames`, `Packets`, `Gateway`). The fixed buffer with its size and
  cursor, TCP framing, WebSocket framing and masking (sections 5.2 and 5.3 of RFC 6455), and the gateway that moves
  chunks from one to the other. Integer widths, byte order and 32-bit truncation are written out.
* **Stream decoding** (`Streams`). What a decoder must satisfy so that the frames do not depend on how the bytes
  were split on their way, with both decoders of the repository as instances.
* **Sessions** (`SessionTable`, `SessionManagers`): the queue of session ids, the lock table, the running averages.
* **Data waves**, twice, as the repository has them: `Waves`, `WaveRuns`, `WaveOutcomes`, `WaveSessions` for
  `NewProcessor` (a map that shrinks as answers come in) and `Flags`, `FlagRuns`, `FlagOutcomes`, `FlagSessions` for
  `ProcesserBasic` (a flag per user), with `Requests`, `UserData` and `Orders` below them. Every session keeps the history of what it sent and heard; who
  still owes an answer is read off that history. The two are related to one abstract set of pending users.
* **Base64** (`Masks`, `Base64`, `Base64Codec`), section 4 of RFC 4648, as a regrouping of bits.
* **Behaviour trees** (`Behaviors`, `BehaviorTrees`, `BehaviorRuns`, `BehaviorMeaning`): the chain notation that builds them on the heap,
  their destruction and what running them means.
* **Trailing spaces a word at a time** (`TrailingSpace`) and **block sizes** (`BlockSizes`).

Where the source updates an object in place, the model is a class or a method with loops, proved against a function on
values; the promises are lemmas about that function. Processors, actions and conditions that users of the framework
supply are parameters: one reaction per call, one function per leaf. Clocks, and whether there is a route or a
connection to send through, are parameters too. `dafny verify dfyconfig.toml` checks everything.

## What the code does, against expectation

* The WebSocket stream decoder passes the 8-byte payload length through the 32-bit `ntohl`, so on a little-endian
  host it sees the upper half, usually zero: a frame with more than 65535 bytes of payload is not taken whole
  (`WsFrames.ParseWrittenFrame`).
* A wave started while no route is connected is never sent, starts no timer, and leaves the session waiting
  (`WaveRuns.WaveNeedsRoute`).
* Under `ProcesserBasic`, a query that the request handler stages is never sent, and the session waits for it without
  a timer; the same holds of every handler whose queries nobody sends (`FlagRuns.HandlerJustified`).
* Under `ProcesserBasic` updates go through the connection the message came by, queries through a random route; where
  that way out is missing, the session waits for nothing (`FlagRuns.UpdateNeedsHandler`, `FlagRuns.QueryNeedsRoute`).
* If the command or user of a session changes after it has locked, the lock outlives the session
  (`SessionTable.ChangedKeyLeaksLock`).
* The relay answers "true" for every non-empty chunk, also when the chunk did not fit (`Gateway.ForwardIntact`).
* The write of a chunk ignores that its length did not fit: a chunk of up to three bytes may go in without one
  (`Gateway.WriteBinaryCases`).
* A second child of a single behaviour node is refused silently, but the cursor moves to it and stays there
  (`BehaviorTrees.RefusedChildKeepsCursor`).
* `svr/common/SessionManager.cpp:71` reads and increments `count` without an order between the two. The model takes
  `(avg * count + d) / (count + 1)`.
* The comment on the sequence node's `Process` (`svr/common/Behavior.h:348-352`) describes the selection node; the code
  was followed.

## Model

| member | source | states |
|---|---|---|
| Rings.Node.constructor | core/include/list.h:84-86 | An initialised node is a ring of one. |
| ListOps.LinkBetween | core/include/list.h:94-102 | Exactly four links change: the node stands between the two given neighbours, in both directions. |
| ListOps.UnlinkBetween | core/include/list.h:136-146 | The two neighbours point to each other, and a null neighbour is left out. |
| ListOps.ListAdd | core/include/list.h:112-115 | On any heap of separate well-formed rings the node becomes the first entry of the list; every other list is as before and all rings stay well-formed. |
| ListOps.ListAddTail | core/include/list.h:124-127 | The same with the node as last entry. |
| ListOps.ListDel | core/include/list.h:153-158 | The entry leaves whatever list it was in, order of the rest kept, and has null links; an entry that has null links already stays as it is, by the null tests of `__list_del`. |
| ListOps.ListDelInit | core/include/list.h:164-168 | The entry leaves its list and is a ring of one; also for a node that was in no list, with or without links. |
| ListOps.ListMove | core/include/list.h:175-179 | The entry leaves its list and becomes the first of the other, or of the same, list; an entry without links is simply added. |
| ListOps.ListMoveTail | core/include/list.h:185-190 | The entry leaves its list and becomes the last of the other, or of the same, list; an entry without links is simply added. |
| ListOps.ListEmpty | core/include/list.h:196-199 | True exactly when the list has no entry; otherwise the head's next link is the first entry. |
| ListOps.SpliceFull | core/include/list.h:201-213 | The entries of a non-empty list stand, in order, before those of the other; the old head belongs to no ring. |
| ListOps.ListSplice | core/include/list.h:220-224 | The same for any list; an empty one changes nothing. |
| ListOps.ListSpliceInit | core/include/list.h:233-240 | The destination holds `list ++ head`, and the source list is an empty ring again. |
| ListOps.FreeList | core/include/list.h:335-338 | The loop ends; the head is empty, every former entry is a ring of one, every other list is as before. |
| Rings.AnyNodeIsHead | core/include/list.h:94-240 | Any node of a ring may be taken for its head, so what is stated for heads and their entries holds at every place of a ring, and for unlinking a head. |
| ListRuns.PerformAll | core/include/list.h:94-240 | Over every run of these operations from any heap of separate rings, deleted entries and emptied heads being added again included, the rings stay separate and well-formed and hold what the abstract run gives, and every node is accounted for. |
| ListRuns.NodesConserved | core/include/list.h:94-240 | No operation loses a node: each stays in one ring, or is an entry that `list_del` has let go, or a head that a plain splice has. |
| ListRuns.PendingOrder | core/include/timerlist.h:94-96 | After any sequence of attachments and disablings, exactly the timers last attached are pending, in the order of those attachments. |
| ListRuns.RunTimers | core/include/timerlist.h:94-96 | The heap follows that abstract run, so each timer is in at most one ring. |
| Rings.LinkedPrepend | core/include/list.h:94-115 | The pointer writes of an insertion behind the head turn linked rings into linked rings with the node first. |
| Rings.LinkedDrop | core/include/list.h:136-158 | The pointer writes of an unlinking take one node out of its ring and leave the others linked. |
| Rings.LinkedSplice | core/include/list.h:201-213 | The four pointer writes of a splice join two rings in the right order and leave the others linked. |
| Bytes.XorBit | svr/common/WSPacket.h:193 | The exclusive or of the masking loop, bit for bit. |
| Bytes.XorByteTwice | svr/common/WSPacket.h:193 | Applying the same key byte twice gives the byte back. |
| Wire.StoredHtonl | svr/common/Packet.h:108-110 | A number stored after `htonl` lies in memory most significant byte first. |
| Wire.LoadedNtohl | svr/common/Packet.h:125 | A number loaded and passed through `ntohl` is the big-endian reading of the bytes. |
| Wire.StoredHtonl64 | svr/common/WSPacket.h:86-98 | The two swapped halves amount to the 8-byte network order. |
| Wire.LoadedNtohl64 | svr/common/WSPacket.h:100-112 | The inverse: the value read is the big-endian reading of eight bytes. |
| Wire.Htonl64Twice | svr/common/WSPacket.h:86-112 | The 64-bit swap undoes itself. |
| Streams.DrainSound | core/include/DefaultStreamDecoder.h:10-33 | Cutting loses nothing: frames and rest spell the input, every frame is accepted whole, the rest starts with none. |
| Streams.DrainUnique | core/include/DefaultStreamDecoder.h:10-33 | There is only one way to cut like that. |
| Streams.ChunkingIndependence | core/include/DefaultStreamDecoder.h:10-33 | For a lawful decoder, frames and stopping point are the same however the stream was split. |
| TcpFrames.ParseAcceptsFrames | core/include/DefaultStreamDecoder.h:10-33 | The answer is n exactly when the first n bytes are a TCP frame. |
| TcpFrames.ParseRejectsHopeless | svr/common/PacketDecoder.cpp:11-40 | With a header present, the decoder gives up exactly when no continuation of the bytes can start with a frame; includes the 32-bit wrap of the length. |
| TcpFrames.ParseStable | core/include/DefaultStreamDecoder.h:10-33 | A positive or negative answer does not change when more bytes arrive. |
| TcpFrames.ParseLawful | core/include/DefaultStreamDecoder.h:10-33 | The TCP decoder is lawful, so its frames do not depend on chunking. |
| TcpFrames.StreamRoundTrip | core/include/DefaultStreamDecoder.h:10-33 | Any chunking of frames followed by an unfinished one yields those frames, in order, and the unfinished rest. |
| TcpFrames.HeaderMakesFrame | svr/common/Packet.h:106-113 | A packet whose header has been written is a frame and is accepted whole. |
| WsFrames.Minimal | svr/common/WSPacket.h:294-305 | The length class chosen has the shortest encoding that holds the length. |
| WsFrames.HeaderFields | svr/common/WSPacket.h:119-170 | From any frame, of any length class, masked or not, head length, mask flag, key and payload length are read back. |
| WsFrames.LengthCut | svr/common/WSPacket.h:147-166 | Any payload length is read back modulo 2^32, as a signed number. |
| WsFrames.UnmaskRestores | svr/common/WSPacket.h:191-194 | The in-place masking loop gives the body back, and touches nothing else. |
| WsFrames.CopyRecoversBody | svr/common/WSPacket.h:173-230 | After a frame of any length class and any key has been copied in, the cursor stands on the unmasked body. |
| WsFrames.ParseLawful | svr/common/WSPacketDecoder.h:4-11 | The WebSocket stream decoder is lawful too. Body: svr/common/WSPacketDecoder.cpp, lines 64-87. |
| WsFrames.ParseRejects | svr/common/WSPacketDecoder.h:4-11 | It gives up exactly on an 8-byte length whose upper half, with the header, does not fit an `int`. Body: svr/common/WSPacketDecoder.cpp, lines 64-87. |
| WsFrames.DecoderSees | svr/common/WSPacketDecoder.h:7-9 | The length it sees is the true one, except its upper half for the 8-byte form. Body: svr/common/WSPacketDecoder.cpp, lines 5-62. |
| WsFrames.ParseWholeFrame | svr/common/WSPacketDecoder.h:4-11 | It takes a frame whole exactly when the length is not in the 8-byte form or is zero. Body: svr/common/WSPacketDecoder.cpp, lines 64-87. |
| WsFrames.ParseWrittenFrame | svr/common/WSPacketDecoder.h:4-11 | A frame as `_end` writes it is taken whole exactly up to 65535 bytes of payload. Body: svr/common/WSPacketDecoder.cpp, lines 64-87. |
| WsFrames.StreamRoundTrip | svr/common/WSPacketDecoder.h:4-11 | Any chunking of such frames yields them again. Body: svr/common/WSPacketDecoder.cpp, lines 64-87. |
| Packets.Packet.Tcp | svr/common/Packet.h:48-53 | A new TCP packet is a blank header, cursor behind it. |
| Packets.Packet.WsInput | svr/common/WSPacket.h:232-237 | A new WebSocket input packet is a blank header, cursor behind it. |
| Packets.Packet.WsOutput | svr/common/WSPacket.h:405-409 | A new WebSocket output packet is empty. |
| Packets.Packet.PacketBytes | svr/common/Packet.h:31-32 | The bytes in use, which is what goes to the socket. |
| Packets.Packet.Append | svr/common/Packet.h:80-87 | The bytes go to the end of the contents, or the packet stays as it is and the answer is false. |
| Packets.Packet.Take | svr/common/Packet.h:55-63 | The next bytes, and the cursor behind them, or nothing at all. |
| Packets.Packet.AppendInt | svr/common/Packet.h:207 | Four bytes, most significant first, of an integer of either sign in two's complement. |
| Packets.Packet.TakeInt | svr/common/Packet.h:125 | The signed 32-bit number at the cursor, or 0 with the cursor unmoved. |
| Packets.Packet.AppendBinary | svr/common/Packet.h:225-229 | Length and bytes; a length that fits is kept even if its bytes do not. |
| Packets.Packet.TakeBinary | svr/common/Packet.h:164-177 | Return code, bytes and cursor in all four cases, -1, -2, 0 and the length. |
| Packets.Packet.Reset | svr/common/WSPacket.h:232-237 | All zeros, size and cursor behind the header. |
| Packets.Packet.TcpCopy | svr/common/Packet.h:36-45 | The contents are the given bytes, unless they exceed the buffer. |
| Packets.Packet.WriteHeader | svr/common/WSPacket.h:282-288 | A move inside the header; one that starts at 0 must be shorter than the header. |
| Packets.Packet.TcpEnd | svr/common/Packet.h:106-113 | The first six bytes become the frame header for the current size, the rest and the cursor stay. |
| Packets.Packet.WsEnd | svr/common/WSPacket.h:290-321 | The contents become the final unmasked binary frame around the body, as RFC 6455 section 5.2 lays it out. |
| Packets.Packet.UnmaskInPlace | svr/common/WSPacket.h:191-194 | The loop computes the unmasking of the old buffer. |
| Packets.Packet.WsCopy | svr/common/WSPacket.h:173-230 | Contents and cursor after a copy, for every header the bytes may hold. |
| Packets.Packet.PayloadLength | svr/common/WSPacket.h:147-166 | The announced length, cut to 32 bits in the 8-byte form. |
| Packets.Packet.CoverFrom | svr/common/PBPacket.cpp:74-86 | One chunk moves over and the header is renewed; nothing moves if the read delivers nothing. |
| Packets.Packet.AppendFrom | svr/common/PBPacket.cpp:148-159 | One chunk is copied behind what the packet holds. |
| Gateway.ReadChunk | svr/common/Packet.h:164-177 | A chunk is delivered whole if the caller has room; otherwise the answer is -2 and the read can be repeated. |
| Gateway.IntReadBack | svr/common/Packet.h:207 | An integer of either sign, written, is the integer that svr/common/Packet.h:125 reads back. |
| Gateway.WriteCases | svr/common/Packet.h:80-87 | Written at the end, or refused with nothing changed. |
| Gateway.WriteBinaryCases | svr/common/Packet.h:225-229 | All four cases of what fits: length and chunk, the length alone, the chunk without its length, nothing. |
| Gateway.ReadBinaryCases | svr/common/Packet.h:164-177 | All five cases of what lies at the cursor, with code, bytes and cursor. |
| Gateway.NothingForwarded | svr/common/PBPacket.cpp:74-86 | Where the read delivers nothing, the packet being built stays as it is, header included. |
| Gateway.CopyUnmasked | svr/common/WSPacket.h:173-230 | Bytes without the mask bit are copied as they are, and the cursor goes behind the header they announce. |
| Gateway.ReadAllChunks | svr/common/Packet.h:164-177 | Reading undoes writing, up to the first empty chunk. |
| Gateway.RelayChunks | svr/common/PBPacket.cpp:74-86 | Moving chunks until one is refused leaves a packet of exactly the chunks before the first empty one. |
| Gateway.GatewayDelivers | svr/common/PBPacket.cpp:74-86 | End to end: chunks in a WebSocket frame of any length class and key come out of the TCP packet unchanged, and the TCP decoder takes that packet whole exactly when something was moved. |
| Gateway.WsRoundTrip | svr/common/WSPacket.h:290-321 | `_end` then `_copy` gives back the written chunks for all three length classes. |
| Gateway.TcpRoundTrip | svr/common/Packet.h:106-113 | A written and ended TCP packet is taken whole by the decoder and read back chunk by chunk. |
| Gateway.ForwardIntact | svr/common/PBPacket.cpp:148-159 | The relay reports success, and the copy is intact exactly when chunk and length still fit. |
| SessionManagers.SessionManager.Init | svr/common/SessionManager.cpp:9-20 | The ids 1 to 65535 are queued in order. |
| SessionManagers.SessionManager.AllocSessionID | svr/common/SessionManager.cpp:22-33 | The front of the queue, or -1 from an empty one. |
| SessionManagers.SessionManager.AllocSession | svr/common/SessionManager.cpp:35-49 | A new session under the next id, or null exactly when no id is left. |
| SessionManagers.SessionManager.ReleaseSession | svr/common/SessionManager.cpp:51-81 | The session is gone, its lock and id are given back, its duration is in the average; an unknown id changes nothing. |
| SessionManagers.SessionManager.LockProcess | svr/common/SessionManager.cpp:165-184 | The lock is taken and the session marked, or nothing changes. |
| SessionManagers.SessionManager.UnlockProcess | svr/common/SessionManager.cpp:186-201 | The lock table afterwards, including the entries that the indexing operator inserts. |
| SessionManagers.SessionManager.ProcessOnTimerOut | svr/common/SessionManager.cpp:158-160 | The statistics start afresh; ids, sessions and locks stay. |
| SessionTable.RunInvariant | svr/common/SessionManager.cpp:9-201 | In every run free and live ids partition 1 to 65535 without duplicates; and in every run that changes no locked session's key, the lock table holds exactly the marked live sessions under their own keys, without empty rows. The head command may change at any time. |
| SessionTable.NextKeepsIds | svr/common/SessionManager.cpp:22-81 | Each step keeps the partition of ids. |
| SessionTable.NextKeepsLocks | svr/common/SessionManager.cpp:51-201 | A step keeps the lock table exact if and only if it leaves the command and user of a locked session as they are. |
| SessionTable.FirstChangeBreaks | svr/common/SessionManager.cpp:165-201 | The first step of a run that changes a locked session's key is the first that leaves the lock table inexact. |
| SessionTable.WhatCallersSee | svr/common/SessionManager.cpp:165-184 | An id comes out unless all are live; a lock is granted exactly when no live session holds that key; no session, no lock. |
| SessionTable.LockTaken | svr/common/SessionManager.cpp:165-184 | A granted lock marks the session and enters its id under its key, and nothing else changes; a refused one changes nothing; it is granted exactly when the key is free. |
| SessionTable.LockExcludes | svr/common/SessionManager.cpp:165-201 | Over every run after a granted lock, as long as its session is not released and no locked key is changed, no other session with that command and user is granted it; and the first to ask after the release is. |
| SessionTable.AllocGives | svr/common/SessionManager.cpp:22-49 | The front of the queue becomes the id of an unmarked session that starts now; without an id nothing changes. |
| SessionTable.ReleaseGives | svr/common/SessionManager.cpp:51-81 | The session is gone and its id is last in the queue; an unknown id changes nothing and is reported. |
| SessionTable.MutualExclusion | svr/common/SessionManager.cpp:165-184 | Two sessions never hold the lock of the same command and user. |
| SessionTable.ChangedKeyLeaksLock | svr/common/SessionManager.cpp:186-201 | A lock outlives its session exactly when the session's key was changed after locking; the new key is then held as well, by whoever held it or, through the indexing operator, under the id 0. |
| SessionTable.FirstInFirstOut | svr/common/SessionManager.cpp:22-78 | Over every run, ids handed out, then those queued, are those queued first, then those released, in order. |
| SessionTable.ReuseDistance | svr/common/SessionManager.cpp:22-78 | An id released behind f others is handed out by the (f+1)-th later allocation and by none before it. |
| SessionTable.AverageDrift | svr/common/SessionManager.cpp:62-71 | The stored average lies between the smallest duration and the true mean, at most (n-1)/2 below the mean. |
| SessionTable.AverageFits | svr/common/SessionManager.cpp:70-71 | Neither the average nor the value it is computed from exceeds the number of durations times the longest, so that `long long` suffices as long as that product fits. |
| SessionTable.QuotientCuts | svr/common/SessionManager.cpp:71 | The division of the average cuts towards zero, for negative times as well. |
| SessionTable.DealtCounts | svr/common/SessionManager.cpp:63 | In every run the counter is the number of releases since the last reset. |
| SessionTable.StartsAreAllocations | svr/common/SessionManager.cpp:45-46 | In every run a live session's start is the time of the allocation that the history shows for its id. |
| SessionTable.StatsFollowDurations | svr/common/SessionManager.cpp:62-71 | In every run, with head commands changing after locking as well, the figures of a command are those of the times, from allocation to release, of the sessions released under it since the last reset. |
| UserData.MergeIsOverlay | svr/common/Common.cpp:70-77 | Merging is the right-biased overlay of five optional parts: associative, with a unit, idempotent. |
| UserData.MergeIsReplacement | svr/common/Common.cpp:70-77 | Merging and replacing agree exactly when the new data leaves out no part the old data had. |
| WaveSessions.Session.NewAddGetData | svr/common/Session.cpp:145-148 | One more key for that user, nothing else. |
| WaveSessions.Session.NewAddUpdateData | svr/common/Session.cpp:150-153 | One more update at the end of that user's list. |
| WaveSessions.Session.SendRequestToUser | svr/common/Message.cpp:223-264 | One message and a running timer, or nothing without a route; the user -1 is routed as the session's own. |
| WaveSessions.Session.ListKeys | svr/common/NewProcessor.cpp:114-119 | The inner loop lists the keys of one user in ascending order. |
| WaveSessions.Session.OnGetData | svr/common/NewProcessor.cpp:98-124 | From idle, one request per staged user in ascending order, then the waiting state; otherwise done. |
| WaveSessions.Session.OnUpdateData | svr/common/NewProcessor.cpp:152-179 | The same for updates. |
| WaveSessions.Session.OnGetResponse | svr/common/NewProcessor.cpp:126-150 | Wrong message, failure, answer before the last and last answer, each with its new state and verdict. |
| WaveSessions.Session.OnUpdateResponse | svr/common/NewProcessor.cpp:181-204 | The same for updates. |
| WaveSessions.Session.EndProcess | svr/common/NewProcessor.cpp:50-54 | The timer is stopped and the session released. |
| WaveSessions.Session.Process | svr/common/NewProcessor.cpp:5-48 | What one message does to the session; the dispatch loop runs at most twice. |
| Requests.OnePerUser | svr/common/NewProcessor.cpp:108-121 | The i-th message of a wave is that of the i-th user in ascending order. |
| Requests.WaveSent | svr/common/NewProcessor.cpp:98-124 | After a wave has gone out, the requests that the history shows as unanswered are those of the wave, and none of the other kind. |
| WaveRuns.WaveAsksEachUserOnce | svr/common/NewProcessor.cpp:98-124 | A wave asks every staged user, each once, in strictly ascending order, for the staged keys in ascending order, by the right route, and no one else. |
| WaveRuns.WaveTellsEachUserOnce | svr/common/NewProcessor.cpp:152-179 | An update wave tells every staged user, each once, in strictly ascending order, the updates staged for that user as they are, by the right route, and no one else. |
| WaveRuns.ProcessJustified | svr/common/NewProcessor.cpp:5-54 | A justified wait: a non-empty map, which holds exactly the requests that the history shows as sent in the last wave and not answered since, with their contents, under a running timer. After one message every wait is justified exactly when the step is in order: a wave that can be begun can be sent, and a failure handler that keeps the wave alive adds nothing to it. |
| WaveRuns.RunJustified | svr/common/NewProcessor.cpp:5-204 | In every run from a new session whose messages were in order when they arrived, every wait is justified. |
| WaveRuns.FirstMisstep | svr/common/NewProcessor.cpp:5-204 | The first message that is not in order leaves a wait that is not justified. |
| WaveRuns.ProperRunInOrder | svr/common/NewProcessor.cpp:5-204 | With a route, and processors that stage data only before they return Get or Save, every run is in order, whatever answers come. |
| WaveRuns.WaveNeedsRoute | svr/common/RouteManager.cpp:50-68 | The wait that a wave begins is justified exactly when there was a route, or when the very same requests are still out under a timer from a wave cut short. |
| WaveRuns.FailureSendsNothing | svr/common/NewProcessor.cpp:126-138 | A failed wave is not restarted; the session lives on exactly if the failure handler asks for it. |
| WaveRuns.OneAnswer | svr/common/NewProcessor.cpp:126-204 | One answer merges its data, and runs the success handler exactly if no one else is pending. |
| WaveRuns.WaveStaysOpen | svr/common/NewProcessor.cpp:126-204 | As long as someone asked has not answered no handler runs, whatever repeated or unasked answers arrive. |
| WaveRuns.WaveCompletes | svr/common/NewProcessor.cpp:126-204 | The answer that completes the set runs the success handler, once, on the merged data. |
| WaveRuns.MergedPointwise | svr/common/NewProcessor.cpp:140-142 | What is gathered for each user is what was known overlaid with that user's own answer. |
| WaveRuns.WaveConfluence | svr/common/NewProcessor.cpp:126-204 | Two runs of one session on one answer per user asked, in any two orders, gather the same data and call the success handler once, with the last answer. |
| WaveRuns.RepeatedAnswer | svr/common/Common.cpp:70-77 | An answer repeated before completion changes nothing but the history. |
| WaveOutcomes.AddGetsStaged | svr/common/Session.cpp:145-148 | Staging calls add up to exactly the keys called for each user, and those staged before. |
| WaveOutcomes.AddUpdatesStaged | svr/common/Session.cpp:150-153 | Staging calls add up to each user's updates, in the order of the calls, behind those staged before. |
| WaveOutcomes.RequestOutcome | svr/common/NewProcessor.cpp:8-12 | A request, in any state, a new session included, runs the request handler on the idle session. By its verdict the session then ends with its timer off; goes on idle; or waits for a wave of all that is staged, sent under a timer if there is a route, or ends if nothing is staged. |
| WaveOutcomes.IdleResponseOutcome | svr/common/NewProcessor.cpp:15-19 | Any response in the idle state runs the response handler, with the same continuations. |
| WaveOutcomes.PartialAnswerOutcome | svr/common/NewProcessor.cpp:140-146 | A successful answer with somebody left is merged in and taken off the list, and nothing else happens. |
| WaveOutcomes.LastAnswerOutcome | svr/common/NewProcessor.cpp:126-204 | A successful answer with nobody left runs the success handler of the wave on the idle session, with the same continuations. |
| WaveOutcomes.FailureOutcome | svr/common/NewProcessor.cpp:135-138 | A failed answer runs the failure handler of the wave in the waiting state; anything it asks for but going on ends the session. |
| WaveOutcomes.UnexpectedOutcome | svr/common/NewProcessor.cpp:5-54 | A push, or a response that the state does not expect, ends the session with its timer off and no handler called. |
| FlagSessions.Session.AddGetData | svr/common/Session.cpp:60-89 | The key is listed once for the user, the flag is unset, and the first call of a round clears the one before. |
| FlagSessions.Session.AddUpdateData | svr/common/Session.cpp:91-110 | The updates join the user's list, the flag is unset, and the first call of a round clears the one before. |
| FlagSessions.Session.IsAllUserDataReady | svr/common/Session.cpp:46-58 | True exactly when every flag is set, and then the session is idle. |
| FlagSessions.Session.QueryUserData | svr/common/Session.cpp:112-121 | One query per staged user, in ascending order, if there is a route to send through. |
| FlagSessions.Session.UpdateUserData | svr/common/Session.cpp:123-133 | One update message per staged user through the given connection, and the waiting state even if there is none. |
| FlagSessions.Session.ProcessQueryUserData | svr/common/ProcesserBasic.cpp:19-35 | Wrong state, nothing staged, and the query, each with its result. |
| FlagSessions.Session.ProcessUpdateUserData | svr/common/ProcesserBasic.cpp:37-52 | Wrong state, nothing staged, and the update, each with its result; updates go through the connection the message came by, not through a random route. |
| FlagSessions.Session.ProcessResponseQueryKVDBData | svr/common/ProcesserBasic.cpp:67-91 | A failure, an answer that leaves flags unset, and the one that sets the last. |
| FlagSessions.Session.ProcessResponseUpdateKVDBData | svr/common/ProcesserBasic.cpp:93-119 | The same for updates, merging instead of replacing. |
| FlagSessions.Session.Process | svr/common/ProcesserBasic.cpp:121-182 | What one message does to the session. |
| FlagRuns.StagingAgrees | svr/common/Session.cpp:60-89 | The same staging calls leave the same keys for the same users in both implementations; the older lists have no duplicates and one unset flag per user. |
| FlagRuns.UpdateStagingAgrees | svr/common/Session.cpp:91-110 | The same updates staged one by one leave the same lists for the same users in both implementations. |
| FlagRuns.WavesStartAlike | svr/common/Session.cpp:112-121 | Staged alike, both send one message per user in the same order by the same routes for the same keys, and then wait for the same users. |
| FlagRuns.UpdatesStartAlike | svr/common/Session.cpp:123-133 | With the same updates staged, both send the same messages by the same routes, and then wait for the same users. |
| FlagRuns.BarriersInStep | svr/common/ProcesserBasic.cpp:67-119 | One successful answer leaves both barriers waiting for the same users, or opens both. |
| FlagRuns.BarriersStayClosed | svr/common/ProcesserBasic.cpp:67-119 | Over any trace of successful answers, repeated and unasked ones included, both stay closed as long as someone asked is missing. |
| FlagRuns.BarriersOpenTogether | svr/common/ProcesserBasic.cpp:67-119 | Both open with the answer that completes the set. |
| FlagRuns.QueryDataAgrees | svr/common/ProcesserBasic.cpp:83 | Replacing and merging keep the same data exactly when the answer leaves out no known part. |
| FlagRuns.ProcessJustified | svr/common/ProcesserBasic.cpp:121-182 | A justified wait: the unset flags are exactly those of the users asked in the last wave and not heard since, for what is staged for them, under a running timer. After one message the session is justified exactly when the step is in order, a condition on the state, on what the processor stages and answers, and on what can be sent through. |
| FlagRuns.RunJustified | svr/common/ProcesserBasic.cpp:121-182 | In every run whose messages were in order when they arrived, every wait is justified. |
| FlagRuns.FirstMisstep | svr/common/ProcesserBasic.cpp:121-182 | The first message that is not in order leaves a wait that is not justified. |
| FlagRuns.DisciplinedInOrder | svr/common/ProcesserBasic.cpp:121-182 | Handlers that stage queries only where they are sent, with route and connection there, are always in order. |
| FlagRuns.HandlerJustified | svr/common/ProcesserBasic.cpp:169-181 | For every call of a handler with no answer outstanding, what follows is justified exactly when the handler ends the session, stages nothing, or ends on updates that can be sent. |
| FlagRuns.QueryNeedsRoute | svr/common/ProcesserBasic.cpp:19-35 | A staged query round becomes a justified wait exactly when there is a route. |
| FlagRuns.UpdateNeedsHandler | svr/common/ProcesserBasic.cpp:37-52 | A staged update round becomes a justified wait exactly when the connection it came by is there. |
| FlagRuns.QueryAfterWave | svr/common/ProcesserBasic.cpp:84-88 | When an answer completes a query wave, the wait that follows the request handler is justified exactly when the handler does not leave a query staged, nor updates that cannot be sent. |
| FlagRuns.QueryFromRequestHandler | svr/common/ProcesserBasic.cpp:129-132 | The same for the request handler on any idle session, after any pre-staging. |
| FlagOutcomes.QueryRound | svr/common/Session.cpp:60-89 | A round of queries clears an earlier round, lists every key asked for once behind those of its user, and unsets the flags of the users mentioned. |
| FlagOutcomes.UpdateRound | svr/common/Session.cpp:91-110 | A round of updates clears an earlier round, puts every batch whole and in order behind those of its user, and unsets the flags of the users mentioned. |
| FlagOutcomes.RoundsJoin | svr/common/Session.cpp:60-110 | Mixed staging is one round after the other. |
| FlagOutcomes.SendsQueries | svr/common/Session.cpp:112-121 | Every user with a query is asked once, in ascending order, for the keys as listed, by the right route; without a route nothing happens. |
| FlagOutcomes.SendsUpdates | svr/common/Session.cpp:123-133 | Every user with updates is told them once, in ascending order, as they are staged, by the right route; without a connection only the state changes. |
| FlagOutcomes.RequestOutcome | svr/common/ProcesserBasic.cpp:125-137 | A request ends the session, runs the request handler, or sends the queries staged, as pre-processing says. |
| FlagOutcomes.IdleReplyOutcome | svr/common/ProcesserBasic.cpp:140-148 | A reply in the idle state runs the response handler, and sends a query staged there at once. |
| FlagOutcomes.FailedReplyOutcome | svr/common/ProcesserBasic.cpp:71-76 | A failed answer, in either phase, ends the session with its timer off; the failure handler of the phase has run, nothing is sent, no flag and no data changed. |
| FlagOutcomes.PartialReplyOutcome | svr/common/ProcesserBasic.cpp:79-90 | A successful answer with another flag unset sets its flag and takes its data in, replaced in the query phase and merged in the update phase, and nothing else happens. |
| FlagOutcomes.LastReplyOutcome | svr/common/ProcesserBasic.cpp:84-118 | The answer that sets the last flag runs the request or completion handler on the idle session; Completed or Failed ends it, staged updates are sent, and otherwise it goes on. |
| FlagOutcomes.PushOutcome | svr/common/ProcesserBasic.cpp:164-167 | A push runs the push handler in any state, with the same continuations. |
| FlagOutcomes.StrayReplyOutcome | svr/common/ProcesserBasic.cpp:159-173 | A reply in any other state ends the session. |
| FlagOutcomes.RequestAsks | svr/common/ProcesserBasic.cpp:125-137 | With a route, pre-processing that ends on a query and says so leaves the session waiting under a timer, with the queries sent. |
| FlagOutcomes.RequestTells | svr/common/ProcesserBasic.cpp:169-181 | With a connection, a request handler that ends on updates and goes on leaves the session waiting under a timer, with the updates sent. |
| Base64.LookupInverts | svr/common/Base64.cpp:3-6 | Searching the alphabet for a letter gives back its index. |
| Masks.AndBit | svr/common/Base64.cpp:23-26 | `&` bit by bit. |
| Masks.MaskField | svr/common/Base64.cpp:23-26 | Masking a run of bits and shifting it down is the quotient and remainder that cut that field out. |
| Base64Codec.EmitGroup | svr/common/Base64.cpp:23-26 | The mask-and-shift expressions of the encoder compute the four quotients and remainders of a group. |
| Base64Codec.OpenGroup | svr/common/Base64.cpp:70-72 | Those of the decoder, cut to unsigned char, compute the three bytes of a group. |
| Base64.EncodeGroupBits | svr/common/Base64.cpp:23-26 | The four values of a group regroup 24 bits by six. |
| Base64.DecodeGroupBits | svr/common/Base64.cpp:70-72 | The three bytes of a group regroup them by eight. |
| Base64.MissingLetters | svr/common/Base64.cpp:81-91 | The value 255 that stands for a missing letter does not reach the bytes that are emitted. |
| Base64Codec.Base64Encode | svr/common/Base64.cpp:13-54 | The loop with its group buffer computes the encoding. |
| Base64Codec.Base64Decode | svr/common/Base64.cpp:56-95 | The loop with its group buffer computes the decoding of the longest alphabet prefix. |
| Base64Codec.EncodeRegroupsBits | svr/common/Base64.cpp:13-54 | The encoding has 4 * ceil(n / 3) characters; its letters spell the input bits in groups of six with zero bits behind, then come `=` signs (RFC 4648, section 4). |
| Base64Codec.DecodeRegroupsBits | svr/common/Base64.cpp:56-95 | Decoding k letters gives floor(3k / 4) bytes, which spell the leading bits of the letters. |
| Base64Codec.RoundTrip | svr/common/Base64.cpp:13-95 | Decoding undoes encoding for every byte string. |
| Base64Codec.TableRoundTrip | svr/common/Base64.cpp:13-95 | The same for any table of 64 alphabet letters that a search inverts. |
| Base64Codec.DecodeSeesPrefix | svr/common/Base64.cpp:64 | Whatever follows the longest alphabet prefix does not matter. |
| TrailingSpace.SkipTrailingSpace | libs/mysql/m_string.h:266-290 | For every string, length and alignment the result is that of the naive backwards loop. |
| TrailingSpace.SkipWords | libs/mysql/m_string.h:278-286 | The word loop stops with nothing but spaces behind it; word reads are aligned and no read leaves the string. |
| TrailingSpace.TrimmedIsTheCut | libs/mysql/m_string.h:287-289 | The naive loop finds the one position with only spaces behind it and none in front of it. |
| TrailingSpace.WordOfSpaces | libs/mysql/m_string.h:283 | Comparing a word with SPACE_INT is comparing four bytes with a space. |
| Behaviors.Node.constructor | svr/common/Behavior.h:213-216 | A default-constructed node has no child and no parent. |
| Behaviors.Node.AddChild | svr/common/Behavior.h:189-203 | Composite nodes take every child, at the end; single ones (svr/common/Behavior.h:258-277) only if they have none or this one; the parent link follows. |
| Behaviors.Node.AddChildPtr | svr/common/Behavior.h:79-84 | The cursor moves to the child whether it was taken or not. |
| Behaviors.Node.Back | svr/common/Behavior.h:89-97 | The cursor moves to the parent, or stays where there is none. |
| Behaviors.Replay | svr/common/Behavior.h:102-113 | A chain of `<` and `>` on the heap does what the run on values says. |
| BehaviorTrees.Build | svr/common/Behavior.h:79-113 | From any cursor with room, the chain of a forest hangs it below the cursor, in order, and comes back; nothing else changes. |
| BehaviorTrees.BuilderRoundTrip | svr/common/Behavior.h:79-113 | On fresh nodes, the chain builds the tree it spells, with child order and parent links, exactly when no single node gets a second child; the cursor is back at the root and nothing else has moved. |
| BehaviorTrees.TreeUnique | svr/common/Behavior.h:79-113 | The links determine the tree. |
| BehaviorTrees.RefusedChildKeepsCursor | svr/common/Behavior.h:267-277 | Behind a refused child, `>` does not lead back. |
| BehaviorTrees.SameChildAgain | svr/common/Behavior.h:267-277 | The child it already has, a single node takes again. |
| BehaviorTrees.Destory | svr/common/Behavior.h:157-168 | Nodes are deleted in post-order, and no deleted node is looked at again; single nodes as in svr/common/Behavior.h:233-241. |
| BehaviorTrees.PostOrderOnce | svr/common/Behavior.h:157-168 | Every node of the tree is deleted once. |
| BehaviorTrees.PostOrderNodes | svr/common/Behavior.h:157-168 | No node of the tree is forgotten, and no other is deleted. |
| BehaviorTrees.PostOrderChildrenFirst | svr/common/Behavior.h:157-168 | Children are deleted before their parent. |
| BehaviorRuns.Process | svr/common/Behavior.h:308-405 | The loops over children compute the evaluation of the tree, with the table passed from child to child. |
| BehaviorMeaning.AnswerIsTruth | svr/common/Behavior.h:308-405 | A guarded tree answers its truth: a selection is true if some child is, a sequence if every child is, a condition if it holds and its child is true. |
| BehaviorMeaning.RunMeans | svr/common/Behavior.h:308-405 | A run has judged and run exactly what short-circuiting reaches, in order, each on the table the one before left. |
| BehaviorMeaning.ReachedOnlyIfHeld | svr/common/Behavior.h:397-405 | A node is run only if every condition above it holds. |
| BehaviorMeaning.ConditionMeans | svr/common/Behavior.h:397-405 | A condition, with any leaves and on any table: what judging did is kept, the child runs exactly if the condition holds, and a missing one is called. |
| BehaviorRuns.EvalAppend | svr/common/Behavior.h:308-368 | Later children run, in the state the earlier ones left, exactly when none of those decided. |
| BehaviorRuns.FlatMeansTheSame | svr/common/Behavior.h:308-405 | Dissolving a selection inside a selection, or a sequence inside a sequence, anywhere in a tree changes neither the answer nor the effects. |
| BehaviorRuns.FlatIsUnnested | svr/common/Behavior.h:308-368 | That transformation leaves no such nesting. |
| BehaviorRuns.GuardedRuns | svr/common/Behavior.h:397-405 | If every condition has its child, no run calls a missing one. |
| BehaviorRuns.CrashesExactly | svr/common/Behavior.h:308-405 | A tree calls a missing child under some actions and judgements exactly when its shape lets a condition without a child be reached, which is read off the tree alone. |
| BlockSizes.FitBlockSize | core/include/mempool.h:108-114 | The least power of two that is at least 1024 and greater than the request, at most twice the request from 1024 on; defined exactly for requests below 2^30. |

## Left out

- The loop that receives bytes, asks a decoder and skips what it accepts is not part of this model's sources; `Streams.Drain` and `Streams.Feed` are an assumption about it.
- Sockets, polling, TLS, logging, Redis, MySQL, JSON and protobuf: input and output, or code that is not in the repository. Messages are opaque values, sending appends to a list.
- Bodies that are not in the repository: `CTimerUnit`, `CTimerList`, `CTimerObject::AttachTimer`, `CPollerUnit`, `CRawCache`, the rest of `CMemPool`, `SHA1`. A session timer is a flag that is armed, disarmed or fires.
- `CSession::ProcessOnTimerOut` after the release call: the object is gone by then. A timeout is a release.
- The calendar helpers, and the senders of `svr/common/Message.cpp` beyond "one send, then the timer": they would only add easy members.
- `ReadString` and the other fixed-width reads and writes of the packet classes: `ReadString` on a value that is too long goes back two bytes where it had read four, so nothing useful holds of it; the others would repeat `ReadInt`.
- The packet constructors that take a buffer and a length copy nothing into the packet being built where they only create a temporary; the model starts from `Copy`.
- TCP and WebSocket packets share one class here, since their buffer members are the same word for word.
- Packets.Packet.TakeBinary: does not model a negative room, nor the overflow of `nLen + m_nBufPos` for lengths near 2^31; integers are unbounded there.
- Packets.Packet.WsCopy: requires that the payload which a masked header announces lies inside the buffer, because the source does not check it.
- Packets.Packet.WsEnd: requires that header and body fit the buffer, because the source does not check it.
- SessionTable.AverageDrift: does not model overflow of `long long`; `SessionTable.AverageFits` says when there is none.
- SessionManagers.SessionManager.ProcessOnTimerOut: does not model the log line.
- SessionManagers.SessionManager.AllocSession: assumes that no queued id is negative, which `SessionTable.RunInvariant` gives for every run.
- WaveSessions.Session.SendRequestToUser: models of the route header only the user it names, and not the head command.
- FlagSessions.Session.ProcessUpdateUserData: models a message that came by no connection, but not a missing token, which `ProcesserFactoryBasic::ProcessInnerMsg` passes (`svr/common/ProcesserFactoryBasic.cpp:50`) and which the source then dereferences (`svr/common/ProcesserBasic.cpp:50`).
- FlagSessions.Session.ProcessResponseQueryKVDBData: takes what the accessor of the expected response yields; the source does not check which response has arrived.
- SessionTable.RunInvariant: says nothing of the lock table after a locked session's command or user has been changed, which the manager allows; `SessionTable.NextKeepsLocks` shows that it then is inexact.
- FlagRuns.ProcessJustified: leaves open what a second request on one session leads to, and a push in the middle of a wave that stages queries, or updates without a connection. The proxies that receive messages hand only responses to an existing session and give every other message a new one (`svr/room/src/RoomHandlerProxy.cpp:53-103`, `svr/hall/src/HallHandlerProxy.cpp:52-81`), so that none of these arises there.
- TrailingSpace.SkipTrailingSpace: does not model wrap-around of addresses, nor the assertion that is compiled out.
- Behaviors.Node.constructor: models the default constructors; those with a name leave the child pointer of single nodes unset, and names are left out.
- BehaviorRuns.GuardedRuns: is one direction, for a simpler condition; the exact one is `BehaviorRuns.CrashesExactly`.
- BehaviorRuns.Process: does not model actions or conditions that change the tree while it runs.
- BlockSizes.FitBlockSize: leaves the shift by 31 or more undefined, as the language does.
