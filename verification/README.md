# ZMF in Dafny

ZMF is a peer-to-peer framework: instances announce themselves by multicast, exchange requests, replies and events over
ZeroMQ, and switch their modules on and off along the modules' dependencies. This project models its state machines and
the bytes they exchange, and proves what they promise one another.

| file | part of the framework |
|---|---|
| Types.dfy | identities, states, messages and addresses |
| Wire.dfy, Proto.dfy | StateBroadcast and SenderId: the format on values; parser, writers, size and merge on streams, arrays and message objects |
| Registry.dfy, RegistryHistory.dfy | the peer registry: six maps that represent one table, and the queries over them; what they answer, from the history of calls |
| Detector.dfy, Discovery.dfy | the heartbeat failure detector and its notification log on values; the discovery service over the registry |
| Datagram.dfy | what of an announcement a receiver with a buffer of fixed size takes |
| Service.dfy, Connections.dfy, Messaging.dfy | the messaging service as a state machine; what its calls bring about; the service object whose operations are its steps |
| Sections.dfy, Locks.dfy | the same service with its threads interleaved between lock and unlock; its locks and who waits for whom |
| Network.dfy | any number of nodes and a network that loses, delays, reorders and repeats packets |
| Dispatch.dfy, Dispatcher.dfy, OutReply.dfy | the event dispatcher as a state machine; the dispatcher object over the service object; what a module returns for a request |
| ModuleMutex.dfy | the module's mutex and that of the handlers between the instance loop and the delivery thread |
| Subscriptions.dfy, Membership.dfy | what dispatcher, service and discovery keep together |
| Lifecycle.dfy, Instance.dfy | one instance and its requests as a state machine; the core and module objects over registry and dispatcher |
| Cascade.dfy | many instances that depend on one another |
| MessageType.dfy | topics |
| InReply.dfy | the handles of issued requests |

A part that changes its fields in place is a class, and each of its methods states its new state by a function of the old
one (`Abs() == Step(old(Abs()), ...)`). What that function means is proved beside it, over every step, every run or every
interleaving.

Where code and documentation differ, the model follows the code. `getPeerState` of a removed peer reads its last state
and not Dead. `checkQueueSizeEventInsert` returns true to drop. A message type that throws for its length has grown all
the same. `stop()` leaves both change queues and the waiting replies as they are. `startInstance` takes back the stop it
asked for when the id is taken. A handle unsubscribed twice, or kept across a disable, takes the filter of another
subscription to the same topic. The result of parsing a datagram is not looked at, so an announcement longer than the
receive buffer counts as far as it was read, and can make an instance its own peer. An answer that a thread has taken
before a disable can leave after it. A request that is delivered while the module is not enabled, and a module that throws
on a change of state, leave the module's mutex locked. An enable or disable function that subscribes can wait for ever for
the delivery of an event, and a callback that subscribes does. A promised reply that is returned by moving it is never
sent. After a stop with subscriptions the next start takes over a queue without tokens, and the filters lag behind for
good. A second start of one core ends the process unless the first thread was joined, which no caller of `ZmfInstance` can
bring about, since that makes a new core for each start. For each of these a lemma states exactly when the promise holds,
or what holds instead.

## Model

| member | source | states |
|---|---|---|
| `Wire.VarintRoundTrip` | src/proto/FrameworkProto.pb.cc:231-242 | A number below 128^n is read back from its varint in at most n bytes, whatever follows (Base 128 Varints in the Protocol Buffers Encoding specification). |
| `Wire.Varint64RoundTrip` | src/proto/FrameworkProto.pb.cc:245-257 | Every 64-bit number is read back from its varint within ten bytes, whatever follows. |
| `Wire.VarintSizeIsLength` | src/proto/FrameworkProto.pb.cc:322-343 | The size counted by dividing by 128 is the length of the varint. |
| `Wire.VarintForm` | src/proto/FrameworkProto.pb.cc:245-257 | A number is written as its groups of seven bits, the low ones first, each byte but the last with its high bit set. |
| `Wire.VarintReads` | src/proto/FrameworkProto.pb.cc:231-242 | Groups are read up to the first byte without the high bit, also when there are more than the number needs. |
| `Wire.Layout` | src/proto/FrameworkProto.pb.cc:700-760 | The bytes of a StateBroadcast: the present fields by ascending number, each behind its tag (8, 16, 26, 34, 40, 48, 56, 66, 72), numbers as varints, strings and the nested SenderId (under 8 and 16) behind their length. |
| `Wire.RecordRoundTrip` | src/proto/FrameworkProto.pb.cc:588-603 | A byte string of at most 2^31-1 bytes is read back from its length-delimited record, whatever follows. |
| `Wire.ParseSerializedSender` | src/proto/FrameworkProto.pb.cc:220-299 | Parsing a serialized SenderId in front of any bytes into any SenderId is the same as merging it and parsing the rest. |
| `Wire.SenderRoundTrip` | src/proto/FrameworkProto.pb.cc:220-299 | Parsing a serialized SenderId alone ends at the end of its bytes with the merged message, and nothing is lost. |
| `Wire.FieldRoundTrip` | src/proto/FrameworkProto.pb.cc:536-760 | For each of the nine fields, parsing the written value sets just that field to it; the nested SenderId is merged. |
| `Wire.FieldIsSkipped` | src/proto/FrameworkProto.pb.cc:561-760 | A reader that does not know a field, going by its tag alone, skips exactly the bytes written for its value, whichever of the nine it is. |
| `Wire.SenderFieldIsSkipped` | src/proto/FrameworkProto.pb.cc:220-299 | The same of the two fields of SenderId. |
| `Wire.FixedIsSkipped` | src/proto/FrameworkProto.pb.cc:680-690 | An unknown field of fixed width loses exactly its four or eight bytes. |
| `Wire.GroupIsSkipped` | src/proto/FrameworkProto.pb.cc:680-690 | An unknown group that holds any serialized StateBroadcast is skipped to its own end. |
| `Wire.LongVarintFails` | src/proto/FrameworkProto.pb.cc:231-242 | A varint that goes on after ten bytes is malformed. |
| `Wire.GroupEnds` | src/proto/FrameworkProto.pb.cc:680-690 | An unknown group fails where the input ends in it, at a zero tag and at the end tag of another group; fields of fixed width in it are skipped. |
| `Wire.CutRecordReads` | src/proto/FrameworkProto.pb.cc:576-603 | A record that is cut short does not read: as a nested message it ends with the input, a string keeps what there is of it, or what it held if its length is beyond 2^31-1. |
| `Wire.UnreadableLeavesField` | src/proto/FrameworkProto.pb.cc:561-698 | Where the length or number of a value cannot be read, the parse ends; a string or nested message is there then with what it held before, a number is as it was. |
| `Wire.NestedMustEnd` | src/proto/FrameworkProto.pb.cc:576-586 | A nested SenderId that fails, or stops before the end of its record, fails the message around it; what was read of it stays. |
| `Wire.ParseStops` | src/proto/FrameworkProto.pb.cc:670-690 | A parse stops short at a zero tag, at an end tag without its group and at an unreadable tag; at the end of its input it is done. |
| `Wire.UnknownIsIgnored` | src/proto/FrameworkProto.pb.cc:670-690 | A field the message does not have, or one under another wire type, is skipped if it can be and fails the parse otherwise; the message does not change. |
| `Wire.ParseSerialized` | src/proto/FrameworkProto.pb.cc:536-760 | Parsing a serialized StateBroadcast in front of any bytes into any message is the same as merging it and parsing the rest. |
| `Wire.RoundTrip` | src/proto/FrameworkProto.pb.cc:536-760 | Every StateBroadcast whose strings fit a record is parsed back from its serialization, all fields and has-bits. |
| `Wire.MergeByField` | src/proto/FrameworkProto.pb.cc:921-955 | Merging field after field in the order of the wire gives the merged message. |
| `Wire.ConcatenationIsMerge` | src/proto/FrameworkProto.pb.cc:921-955 | Parsing one serialization followed by another gives exactly the merge of the two messages. |
| `Wire.AcceptedExactlyWhenInitialized` | src/proto/FrameworkProto.pb.cc:969-976 | A serialization is accepted exactly when the message has both ports, sender, name, version, lifecycle state and multicast identifier, and the sender its type and instance; it then gives the message. |
| `Wire.SerializeIsInjective` | src/proto/FrameworkProto.pb.cc:700-760 | Different messages have different serializations. |
| `Wire.FieldSizeIsLength` | src/proto/FrameworkProto.pb.cc:828-907 | What ByteSize adds for a field is the number of bytes written for it. |
| `Wire.SizeIsLength` | src/proto/FrameworkProto.pb.cc:828-907 | What ByteSize adds from a field on is the number of bytes written from it on. |
| `Wire.SerializedSize` | src/proto/FrameworkProto.pb.cc:828-907 | The sum that ByteSize accumulates is the exact length of the serialization, and the nested SenderId fits its record. |
| `Proto.CodedInputStream.ReadTagWithCutoff` | src/proto/FrameworkProto.pb.cc:225-229 | Reads the next tag or tells the end of the input from a bad tag. |
| `Proto.CodedInputStream.ExpectTag` | src/proto/FrameworkProto.pb.cc:240-241 | Consumes the tag byte exactly when it is the next byte. |
| `Proto.CodedInputStream.PushLimit` | src/proto/FrameworkProto.pb.cc:576-586 | After the length of a record, exactly its bytes remain, clipped to the outer limit, and the bytes behind are kept for later. |
| `Proto.CodedInputStream.PopLimit` | src/proto/FrameworkProto.pb.cc:576-586 | The bytes behind the record follow what is left of it. |
| `Proto.SenderIdMessage.MergePartialFromCodedStream` | src/proto/FrameworkProto.pb.cc:220-279 | The parser with its expected-tag jumps ends as the plain tag loop does, on every input: same success, same end, and the same message, also when it fails. |
| `Proto.SenderIdMessage.SerializeWithCachedSizes` | src/proto/FrameworkProto.pb.cc:281-299 | Appends exactly the serialization. |
| `Proto.SenderIdMessage.SerializeWithCachedSizesToArray` | src/proto/FrameworkProto.pb.cc:301-320 | Writes exactly the serialization at the target and changes nothing else in the array. |
| `Proto.SenderIdMessage.ByteSize` | src/proto/FrameworkProto.pb.cc:322-350 | Returns and caches the length of the serialization. |
| `Proto.SenderIdMessage.MergeFrom` | src/proto/FrameworkProto.pb.cc:364-375 | Takes over the present fields of the other message and keeps the rest. |
| `Proto.StateBroadcastMessage.ReadSenderMessage` | src/proto/FrameworkProto.pb.cc:576-586 | Reads the nested SenderId from its record, or from what its surroundings leave of it, into the one that is there; on failure the fields read so far stay. |
| `Proto.StateBroadcastMessage.MergePartialFromCodedStream` | src/proto/FrameworkProto.pb.cc:536-698 | The parser with its chain of expected tags ends as the plain tag loop does, on every input, in any field order, with unknown fields and groups skipped: also a failed parse leaves the same message. |
| `Proto.ExpectedTagIsNextTag` | src/proto/FrameworkProto.pb.cc:556-563 | Jumping on an expected tag byte is what the tag loop would do with it. |
| `Proto.StateBroadcastMessage.ParseFromArray` | src/proto/FrameworkProto.pb.cc:536-698 | Parsing succeeds exactly on the accepted inputs; on every input it leaves the message the plain tag loop has read. |
| `Proto.StateBroadcastMessage.MergeFrom` | src/proto/FrameworkProto.pb.cc:921-955 | The receiver becomes the merge, its nested SenderId merged and not replaced; the other message stays. |
| `Proto.StateBroadcastMessage.ByteSize` | src/proto/FrameworkProto.pb.cc:828-907 | Returns the length of the serialization and caches the length of the nested SenderId. |
| `Proto.StateBroadcastMessage.SerializeWithCachedSizes` | src/proto/FrameworkProto.pb.cc:700-760 | Appends exactly the serialization when the nested size is cached. |
| `Proto.StateBroadcastMessage.SerializeWithCachedSizesToArray` | src/proto/FrameworkProto.pb.cc:762-826 | Writes the same bytes as the stream writer at the target and changes nothing else in the array. |
| `Proto.StateBroadcastMessage.SerializeToString` | src/proto/FrameworkProto.pb.cc:700-760 | Sizes and writes: the string is the serialization. |
| `Proto.SenderRecordReadsBack` | src/proto/FrameworkProto.pb.cc:576-586 | Behind its tag the nested SenderId is read back as exactly its own bytes, as a record and as a limited read, and what follows is left. |
| `Registry.OfTypeWithout` | src/discovery/PeerRegistryInternal.cpp:67-90 | Removing an id from the list of its type gives the list of that type after the removal. |
| `Registry.WithoutAt` | src/discovery/PeerRegistryInternal.cpp:80-88 | Erasing the one element with the id is filtering it out. |
| `Registry.AddModuleInternal` | src/discovery/PeerRegistryInternal.cpp:21-41 | The index by id gets the peer, and every type list stays the non-empty, insertion-ordered filter of the ids. |
| `Registry.EraseFromList` | src/discovery/PeerRegistryInternal.cpp:79-88 | The scan erases exactly the peer with the id and keeps the order of the others. |
| `Registry.RemoveModuleInternal` | src/discovery/PeerRegistryInternal.cpp:67-90 | The peer leaves both indexes; dropping a type with a list of one element keeps the grouping exact. |
| `Registry.PeerRegistry.AddModule` | src/discovery/PeerRegistryInternal.cpp:43-64 | The six maps go on to represent the table, which gains the peer unless its id is registered. |
| `Registry.PeerRegistry.RemoveModule` | src/discovery/PeerRegistryInternal.cpp:92-108 | The six maps go on to represent the table, which loses the peer and keeps its recorded states. |
| `Registry.PeerRegistry.ClearRegistry` | src/discovery/PeerRegistryInternal.cpp:111-118 | No peer is left; the recorded states stay. |
| `Registry.PeerRegistry.UpdatePeerState` | src/discovery/PeerRegistryInternal.cpp:121-150 | The six maps go on to represent the table with the new state; the active peers are in the order of activation. It fails exactly on activating an id with a recorded state that is not registered, where the code uses an empty handle. |
| `Registry.PeerRegistry.UpdatePeerAdditionalState` | src/discovery/PeerRegistryInternal.cpp:153-170 | Only the additional state of an id with a recorded one changes. |
| `Registry.AddKeeps` | src/discovery/PeerRegistryInternal.cpp:43-64 | The table keeps unique ids, a state for every row, and exactly the active rows in its active list. |
| `Registry.RemoveKeeps` | src/discovery/PeerRegistryInternal.cpp:92-108 | The same after a removal. |
| `Registry.UpdateKeeps` | src/discovery/PeerRegistryInternal.cpp:121-150 | The same after a change of state that does not activate an id that is gone. |
| `Registry.PeerRegistry.ContainsPeerWithId` | include/zmf/PeerRegistry.hpp:30-43 | True exactly for the registered (or active) ids of the table. |
| `Registry.PeerRegistry.GetPeerWithId` | include/zmf/PeerRegistry.hpp:50-68 | The handle of the row, or nothing. |
| `Registry.PeerRegistry.GetPeersWithType` | include/zmf/PeerRegistry.hpp:75-88 | The handles of the rows of the type, in order. |
| `Registry.PeerRegistry.ContainsPeerWithType` | include/zmf/PeerRegistry.hpp:94-104 | True exactly when a row has the type. |
| `Registry.PeerRegistry.GetAnyPeerWithType` | include/zmf/PeerRegistry.hpp:110-126 | The first row of the type, or nothing. |
| `Registry.PeerRegistry.GetPeersWithTypeVersion` | include/zmf/PeerRegistry.hpp:132-153 | The rows of the type with the version, in order. |
| `Registry.PeerRegistry.ContainsPeerWithTypeVersion` | include/zmf/PeerRegistry.hpp:159-176 | True exactly when a row has type and version. |
| `Registry.PeerRegistry.GetAnyPeerWithTypeVersion` | include/zmf/PeerRegistry.hpp:182-198 | The first row with type and version, or nothing. |
| `Registry.PeerRegistry.GetPeerState` | include/zmf/PeerRegistry.hpp:205-212 | The recorded state; for a registered peer it is Active exactly when the peer is in the active list. |
| `Registry.PeerRegistry.GetPeerAdditionalState` | include/zmf/PeerRegistry.hpp:219-226 | The recorded bytes of a registered peer, nothing otherwise. |
| `Registry.StateOfRemovedPeerIsStale` | include/zmf/PeerRegistry.hpp:203-212 | A peer that was added as inactive and removed still reads as inactive, though the documentation says Dead. |
| `Registry.TableFollowsHistory` | src/discovery/PeerRegistryInternal.cpp:43-150 | After any history of calls, who is registered and which state is recorded follow from the history alone: the last of addition, removal and clearing, and the last state given. |
| `Registry.UpdatableExactly` | src/discovery/PeerRegistryInternal.cpp:121-150 | After any history, updating the state of an id does not run into an empty handle exactly when the id is registered or was never added, or the update does not activate it, or the last state it was given is Active. |
| `Registry.PossibleHistoriesKeepTable` | src/discovery/PeerRegistryInternal.cpp:21-150 | The table is well formed after every history of such calls. |
| `Registry.UnregisteredReadsDeadExactly` | include/zmf/PeerRegistry.hpp:203-212 | After any history of additions, removals, updates and clears, an id that is not registered reads Dead, as documented, exactly when it was never added or the last state it was given is Dead. |
| `RegistryHistory.ListsFollowHistory` | src/discovery/PeerRegistryInternal.cpp:21-150 | After any such history a registered id stands for the handle it was registered with, the ids are listed in the order of registration, and the active ones in the order in which they became active. |
| `RegistryHistory.TypeListsFollowHistory` | src/discovery/PeerRegistryInternal.cpp:21-150 | What the queries by type answer from, after any such history: exactly the registered, or active, ids of the type, the one that came first in front. |
| `RegistryHistory.ExtraFollowsHistory` | src/discovery/PeerRegistryInternal.cpp:153-170 | After any history the additional state of an id is the last one given by adding it while it was not registered or by updating it since it was first added. |
| `RegistryHistory.OfVersionSelects` | include/zmf/PeerRegistry.hpp:132-153 | The handles with a version are exactly those of the list that have it, and one stands before another exactly when it does in the list. |
| `Detector.TickResult` | src/discovery_implementation/PeerDiscoveryService.cpp:170-192 | A tick raises every counter, removes exactly the expired peers and reports each of them dead once, with its last state. |
| `Detector.RegisteredExactlyWhenHeard` | src/discovery_implementation/PeerDiscoveryService.cpp:170-192 | On every run with 5f < 2^32: a peer is registered exactly when it was heard, with no goodbye and at most four ticks since, and its counter is f times those ticks. |
| `Detector.TickBound` | src/discovery_implementation/PeerDiscoveryService.cpp:179-185 | A peer expires exactly at the fifth tick since it was last heard. |
| `Detector.SilentPeerGoesAtFifthTick` | src/discovery_implementation/PeerDiscoveryService.cpp:170-192 | A peer last heard at some event, with no goodbye since, is registered if and only if at most four ticks followed, and its counter is then at most four times the frequency: the fifth tick drops it. |
| `Detector.StepAgrees` | src/discovery_implementation/PeerDiscoveryService.cpp:221-297 | Every reception and every tick keeps the log a chain that tells exactly the registered peers. |
| `Detector.LogRebuildsRegistry` | src/discovery_implementation/PeerDiscoveryService.cpp:221-297 | On every run, replaying the reported changes rebuilds exactly the registered ids and their states. |
| `Detector.NotificationsFormChains` | src/discovery_implementation/PeerDiscoveryService.cpp:356-374 | Each peer's notifications start from Dead, each starts where the one before ended, and none repeats a state. |
| `Detector.KnownIsLatest` | src/discovery_implementation/PeerDiscoveryService.cpp:356-374 | What a listener knows about a peer is its latest notification. |
| `Detector.AbsentReadsZero` | src/discovery_implementation/PeerDiscoveryService.cpp:211-266 | Fields that did not arrive read as zero, Dead or empty, and type and version are cut to their 16 bits. |
| `Detector.ReadsDeadExactlyWhenNeverHeard` | src/discovery_implementation/PeerDiscoveryService.cpp:221-297 | On every run the recorded state of a peer reads Dead exactly when the peer was never heard, so one that expired or said goodbye goes on to read as alive. |
| `Datagram.CutMessage` | src/discovery_implementation/PeerDiscoveryService.cpp:208-210 | Parsing a serialization that is cut short anywhere never finds the multicast identifier, finds the sender if it is complete, finds all of the head if the cut is behind it, and otherwise no lifecycle state. |
| `Datagram.WhatArrives` | src/discovery_implementation/PeerDiscoveryService.cpp:194-210 | What a receiver reads of a serialization: the message if it fits 2048 bytes; of a longer one its head without multicast identifier or, when not even the head fits, its sender and no lifecycle state; nothing of one that no UDP datagram can carry. |
| `Datagram.AnnouncementArrives` | src/discovery_implementation/PeerDiscoveryService.cpp:194-245 | What any receiver, the sender included, takes from an announcement of any size: sender, state, identifier, version, ports and extra bytes as far as they arrive; nothing from one above 65507 bytes. |
| `Datagram.AnnouncementIsAccepted` | src/discovery_implementation/PeerDiscoveryService.cpp:311-345 | What an instance announces has every required field, so the parser accepts it. |
| `Datagram.AnnouncementTakesEffect` | src/discovery_implementation/PeerDiscoveryService.cpp:211-345 | The whole effect of an announcement of any size on any receiver: none if it cannot be sent, is taken for the own one or leaves out the own type; else the sender is heard with its state, if at least the head arrives and the state is not Dead; else a registered sender is dropped. |
| `Datagram.OwnAnnouncement` | src/discovery_implementation/PeerDiscoveryService.cpp:217-245 | An own announcement that fits the buffer changes nothing. The instance becomes its own peer exactly when it does not fit though a datagram carries it and its head fits, the state is not Dead, the multicast identifier is not zero and the own type is not left out. |
| `Discovery.PeerDiscoveryService.OnPeerNew` | src/discovery_implementation/PeerDiscoveryService.cpp:356-364 | While started and not stopping, the peer is added and reported as coming from Dead; otherwise nothing changes. |
| `Discovery.PeerDiscoveryService.OnPeerDead` | src/discovery_implementation/PeerDiscoveryService.cpp:366-374 | While started and not stopping, the peer is removed and reported dead with its last state; otherwise nothing changes. |
| `Discovery.PeerDiscoveryService.ProcessIncomingMulticast` | src/discovery_implementation/PeerDiscoveryService.cpp:221-297 | The registry, the shared counters, the recorded states and the report change as the detector says; version, addresses and additional state are those of the broadcast. |
| `Discovery.PeerDiscoveryService.AddPeriod` | src/discovery_implementation/PeerDiscoveryService.cpp:174-185 | Every shared counter is raised once, and exactly the expired peers are collected, each once. |
| `Discovery.PeerDiscoveryService.UpdatePeerTimeouts` | src/discovery_implementation/PeerDiscoveryService.cpp:170-192 | One tick of the detector, on the registry and the shared handles; while not started or stopping the counters rise all the same and nobody is dropped. |
| `Discovery.NewIsRecorded` | src/discovery_implementation/PeerDiscoveryService.cpp:268-276 | A new peer gets the version and ports of the broadcast and touches no other row. |
| `Service.IdRoundTrip` | src/messaging_implementation/ZmqZmfMessagingServiceImplementation.cpp:506-513 | An identity is read back from the bytes it is sent as. |
| `Service.StepConserves` | src/messaging_implementation/ZmqZmfMessagingServiceImplementation.cpp:303-339 | Every operation keeps the outstanding promises and the pending futures in step, each under its own number. |
| `Service.RunConserves` | src/messaging_implementation/ZmqZmfMessagingServiceImplementation.cpp:303-339 | The same in every run, across stops and starts and the wrap of the numbers. |
| `Service.RequestsPartition` | src/messaging_implementation/ZmqZmfMessagingServiceImplementation.cpp:303-339 | In every run the requests issued are the outstanding, the answered, the failed and the abandoned ones. |
| `Service.PendingCount` | src/messaging_implementation/ZmqZmfMessagingServiceImplementation.cpp:303-339 | There are exactly as many outstanding promises as pending futures. |
| `Service.FuturesSettleOnce` | src/messaging_implementation/ZmqZmfMessagingServiceImplementation.cpp:531-547 | A future is settled at most once: by a reply with its number, by a missing target when it is issued, or by being abandoned. |
| `Service.UnknownReplyIsIgnored` | src/messaging_implementation/ZmqZmfMessagingServiceImplementation.cpp:531-547 | A reply to a number that is not outstanding changes nothing, however often it comes. |
| `Service.LateReplyIsIgnored` | src/messaging_implementation/ZmqZmfMessagingServiceImplementation.cpp:531-547 | With at most 2^64 requests, a reply with the number of a request that is settled changes nothing. |
| `Service.NumbersAreFresh` | src/messaging_implementation/ZmqZmfMessagingServiceImplementation.cpp:306-312 | Below 2^64 requests a new number is not outstanding, and registering it drops no promise. |
| `Service.ValueComesFromReply` | src/messaging_implementation/ZmqZmfMessagingServiceImplementation.cpp:531-547 | In every run a future with a value was pending when a reply frame with its number and that message arrived. |
| `Service.RunKeepsSenders` | src/messaging_implementation/ZmqZmfMessagingServiceImplementation.cpp:522-525 | In every run a waiting request is kept under its own sender. |
| `Service.ReplyGoesToSender` | src/messaging_implementation/ZmqZmfMessagingServiceImplementation.cpp:341-373 | A reply frame leaves exactly when a waiting request with a socket is answered, and goes to that request's sender with its number. |
| `Service.RepliesNeverExceedRequests` | src/messaging_implementation/ZmqZmfMessagingServiceImplementation.cpp:341-373 | In every run, since the last disable, the replies sent for an identity, plus one if a request waits, are at most the requests received with it. |
| `Service.StepKeepsTokens` | src/messaging_implementation/ZmqZmfMessagingServiceImplementation.cpp:402-424 | Within an epoch there is one token per queued change, so a token that is taken finds its change. |
| `Service.RestartKeepsTokensIffDrained` | src/messaging_implementation/ZmqZmfMessagingServiceImplementation.cpp:165-175 | After a stop and a start the tokens match the queues exactly when both queues were empty at the stop. |
| `Service.StopLeavesQueue` | src/messaging_implementation/ZmqZmfMessagingServiceImplementation.cpp:169-171 | A subscription queued at a stop is left in the queue without a token. |
| `Service.StepKeepsUntokened` | src/messaging_implementation/ZmqZmfMessagingServiceImplementation.cpp:402-424 | Within an epoch the number of queued subscription changes without a token stays as it is. |
| `Service.CatchesUpExactlyWhenTokened` | src/messaging_implementation/ZmqZmfMessagingServiceImplementation.cpp:456-475 | Within an epoch the SUB socket can catch up with the queue of subscription changes exactly when each has its token. |
| `Service.RestartCatchesUpIffDrained` | src/messaging_implementation/ZmqZmfMessagingServiceImplementation.cpp:134-178 | After a stop and a start, at any moment: as many subscription changes as were queued at the stop always wait, and the SUB socket can catch up exactly when none was. |
| `Service.DrainedMembersAppend` | src/messaging_implementation/ZmqZmfMessagingServiceImplementation.cpp:426-454 | A change queued last takes effect last on the connections. |
| `Service.DrainedPrefixesAppend` | src/messaging_implementation/ZmqZmfMessagingServiceImplementation.cpp:456-475 | A change queued last takes effect last on the filters. |
| `Service.ConnectAgrees` | src/messaging_implementation/ZmqZmfMessagingServiceImplementation.cpp:206-265 | Joining and leaving keep the membership queue leading to exactly the peers with a request socket. |
| `Service.LastChangeDecides` | src/messaging_implementation/ZmqZmfMessagingServiceImplementation.cpp:426-454 | Once the queue is drained an address is connected exactly when the last queued change about it joins it, or none is about it and it was connected. |
| `Service.RestartKeepsMembersIff` | src/messaging_implementation/ZmqZmfMessagingServiceImplementation.cpp:134-178 | After a stop and a start the membership queue leads to the peers with a socket exactly when everyone who joins in the queue at the stop leaves in it again. |
| `Service.DrainedTopic` | src/messaging_implementation/ZmqZmfMessagingServiceImplementation.cpp:456-475 | Once the queue is drained a topic is not filtered exactly when the filters there were are withdrawn in the queue and no part at its end subscribes more often than it withdraws. |
| `Service.RestartDrainsIff` | src/messaging_implementation/ZmqZmfMessagingServiceImplementation.cpp:134-178 | After a stop and a start the drained queue leaves no filter exactly when, for every topic, no part at the end of the queue at the stop subscribes more often than it withdraws. |
| `Service.StepKeepsMembers` | src/messaging_implementation/ZmqZmfMessagingServiceImplementation.cpp:426-454 | With one publish address per peer, every step keeps that, across starts and stops, except exactly a stop that finds somebody joining in the queue. |
| `Connections.JoinOpensLeaveCloses` | src/messaging_implementation/ZmqZmfMessagingServiceImplementation.cpp:206-265 | A peer that joins has a socket, one that leaves has none, no other peer's socket changes, and the drained SUB socket follows; joining again and leaving twice change nothing. |
| `Connections.SocketsFollowCalls` | src/messaging_implementation/ZmqZmfMessagingServiceImplementation.cpp:196-265 | In every run a peer has a request socket exactly when it joined or greeted while the service was up and neither left nor was the service stopped since; the socket is connected to the address given first since then. |
| `Connections.AliveExactlyWhenUp` | src/messaging_implementation/ZmqZmfMessagingServiceImplementation.cpp:28-178 | In every run the service is alive exactly when it was started and not stopped since. |
| `Connections.RequestsWaitExactly` | src/messaging_implementation/ZmqZmfMessagingServiceImplementation.cpp:341-373 | In every run a request waits for a reply exactly when it arrived while the service was up and has, while it was up, neither been answered nor dropped by a disable since; a stop leaves it waiting. |
| `Connections.PendingSettlesExactly` | src/messaging_implementation/ZmqZmfMessagingServiceImplementation.cpp:303-339 | A pending future gets the value of the reply with its number, is abandoned by exactly a disable, a stop, its own cancelling or the number coming round again, and is pending after anything else. |
| `Connections.DisableDrops` | src/messaging_implementation/ZmqZmfMessagingServiceImplementation.cpp:607-617 | After a disable nothing is outstanding, every pending future is abandoned, no request waits, and nothing else has changed. |
| `Connections.StopDrops` | src/messaging_implementation/ZmqZmfMessagingServiceImplementation.cpp:134-178 | After a stop nothing is outstanding, every pending future is abandoned and no socket is open. |
| `Connections.TokensQueueUp` | src/messaging_implementation/ZmqZmfMessagingServiceImplementation.cpp:402-424 | Tokens are handled in the order they were sent in: one for a filter, one for a peer connected or disconnected, one at the stop, and none for anything else. |
| `Connections.AbsentIdentityIsZero` | src/messaging_implementation/ZmqZmfMessagingServiceImplementation.cpp:506-513 | Type and instance of an identity whose fields are missing read as zero. |
| `Messaging.ZmqService.Start` | src/messaging_implementation/ZmqZmfMessagingServiceImplementation.cpp:28-131 | Starts only when not alive and when its sockets can be bound; notify channel and SUB socket are new, the change queues are not. A start that cannot bind leaves no more than closed sockets. |
| `Messaging.ZmqService.Stop` | src/messaging_implementation/ZmqZmfMessagingServiceImplementation.cpp:134-178 | Drops all promises and request sockets; change queues and waiting replies stay. |
| `Messaging.ZmqService.ClearRequests` | src/messaging_implementation/ZmqZmfMessagingServiceImplementation.cpp:161-163 | Every pending future is abandoned, no other future changes, and nothing is outstanding. |
| `Messaging.ZmqService.PeerJoin` | src/messaging_implementation/ZmqZmfMessagingServiceImplementation.cpp:196-204 | Connects the peer, or fails when not alive. |
| `Messaging.ZmqService.InternalConnect` | src/messaging_implementation/ZmqZmfMessagingServiceImplementation.cpp:206-243 | An unknown peer gets a socket, a greeting with the own id and addresses, a queued change and a token; a known one nothing. |
| `Messaging.ZmqService.PeerLeave` | src/messaging_implementation/ZmqZmfMessagingServiceImplementation.cpp:245-265 | A known peer loses its socket and a change with its token is queued. |
| `Messaging.ZmqService.Subscribe` | src/messaging_implementation/ZmqZmfMessagingServiceImplementation.cpp:267-276 | Queues the topic and a token, or fails when not alive. |
| `Messaging.ZmqService.Unsubscribe` | src/messaging_implementation/ZmqZmfMessagingServiceImplementation.cpp:278-287 | Queues the removal and a token, or fails when not alive. |
| `Messaging.ZmqService.SendRequest` | src/messaging_implementation/ZmqZmfMessagingServiceImplementation.cpp:303-339 | Issues the next number and a future; the request goes out under it, or the future fails at once when the target has no socket. |
| `Messaging.ZmqService.SendReply` | src/messaging_implementation/ZmqZmfMessagingServiceImplementation.cpp:341-373 | Takes the waiting request and answers it if its sender has a socket; does nothing for an identity that does not wait. |
| `Messaging.ZmqService.HandleRepIn` | src/messaging_implementation/ZmqZmfMessagingServiceImplementation.cpp:477-504 | Handles all waiting frames in order, each as its kind demands. |
| `Messaging.ZmqService.HandleReplyReceived` | src/messaging_implementation/ZmqZmfMessagingServiceImplementation.cpp:531-547 | Settles the outstanding promise with the number, or nothing. |
| `Messaging.ZmqService.HandleNotify` | src/messaging_implementation/ZmqZmfMessagingServiceImplementation.cpp:402-475 | Takes one token and applies at most one change. |
| `Messaging.ZmqService.CancelRequest` | src/messaging_implementation/ZmqZmfMessagingServiceImplementation.cpp:595-605 | Drops the promise while alive. |
| `Messaging.ZmqService.OnDisable` | src/messaging_implementation/ZmqZmfMessagingServiceImplementation.cpp:607-617 | Drops all promises and all waiting requests, or fails when not alive. |
| `Messaging.SendingSteps` | src/messaging_implementation/ZmqZmfMessagingServiceImplementation.cpp:310-334 | Registering the promise first and settling it at once without a socket equals never having registered it. |
| `Messaging.FailedStartsLeaveNoTrace` | src/messaging_implementation/ZmqZmfMessagingServiceImplementation.cpp:28-131 | A run in which any starts fail to bind their sockets ends as the run without those starts: alive or not alike, in the same state while alive, and up to closed sockets otherwise. |
| `Network.EmittedIsSound` | src/messaging_implementation/ZmqZmfMessagingServiceImplementation.cpp:315-326 | What a node sends is what it asked, what it answered to a request it was handed, or a greeting with its own id and address. |
| `Network.ValueDelivered` | src/messaging_implementation/ZmqZmfMessagingServiceImplementation.cpp:531-547 | A reply that settles a future comes from the target of that very request. |
| `Network.NextKeepsSound` | src/messaging_implementation/ZmqZmfMessagingServiceImplementation.cpp:303-373 | Every action of a node and every delivery, in any order and any number of times, keeps the correlation invariant. |
| `Network.RunKeepsSound` | src/messaging_implementation/ZmqZmfMessagingServiceImplementation.cpp:303-373 | It holds in every reachable state of any number of nodes. |
| `Network.ValueIsTargetsAnswer` | src/messaging_implementation/ZmqZmfMessagingServiceImplementation.cpp:303-373 | End to end: a value in the future of request k is a reply that the chosen target's module gave to request k of this node, having been handed what was sent. |
| `Network.NextKeepsMembers` | src/messaging_implementation/ZmqZmfMessagingServiceImplementation.cpp:549-567 | Every action and delivery keeps each node connected to the peers it has sockets for, except exactly a stop that finds somebody joining in its queue: greetings carry true addresses. |
| `Network.MembersAgreeEverywhere` | src/messaging_implementation/ZmqZmfMessagingServiceImplementation.cpp:206-265 | In every run whose stops find nobody joining in their queue, whatever happens to the greetings, every node's SUB socket, once it has caught up, is connected to exactly the peers it has a request socket for. |
| `Network.GreetingConnectsBack` | src/messaging_implementation/ZmqZmfMessagingServiceImplementation.cpp:549-567 | A greeting that is delivered gives the peer a socket back to the node that joined it. |
| `Network.RequestCanBeAnswered` | src/messaging_implementation/ZmqZmfMessagingServiceImplementation.cpp:303-373 | Between connected nodes, or from a node to itself, sending, delivering, answering and delivering back puts the answer into the future of the request. |
| `Sections.RegisteringReplacesNothing` | src/messaging_implementation/ZmqZmfMessagingServiceImplementation.cpp:305-313 | Below 2^64 requests, in any interleaving, registering a promise finds its number free. |
| `Sections.StepConserves` | src/messaging_implementation/ZmqZmfMessagingServiceImplementation.cpp:303-339 | Each piece of an operation between two locks keeps promises and futures in step. |
| `Sections.FuturesSettleOnce` | src/messaging_implementation/ZmqZmfMessagingServiceImplementation.cpp:303-339 | In any interleaving a future settles once, and only by its own number. |
| `Sections.StepKeepsTokens` | src/messaging_implementation/ZmqZmfMessagingServiceImplementation.cpp:233-237 | In any interleaving a queued change has its token or a thread about to send it, and a taken token finds its change. |
| `Sections.StepKeepsOwner` | src/messaging_implementation/ZmqZmfMessagingServiceImplementation.cpp:209-242 | One thread at a time is between changing a socket and sending the token. |
| `Sections.StepKeepsMembers` | src/messaging_implementation/ZmqZmfMessagingServiceImplementation.cpp:206-265 | In any interleaving the queue, with the change on its way, leads to exactly the peers with a request socket. |
| `Sections.StepOpens` | src/messaging_implementation/ZmqZmfMessagingServiceImplementation.cpp:341-371 | A step opens at most the request that arrives, and sending an answer closes one. |
| `Sections.AnswersComeFromRequests` | src/messaging_implementation/ZmqZmfMessagingServiceImplementation.cpp:341-371 | From any moment of any interleaving on, the answers sent and what is then taken or waiting are at most the requests received since and what was taken or waiting at that moment. |
| `Sections.AnswersNeverExceedRequests` | src/messaging_implementation/ZmqZmfMessagingServiceImplementation.cpp:341-371 | In every interleaving, for every identity, the answers sent and on their way and the waiting request together are at most the requests received. |
| `Sections.NoAnswerOutlivesDisableExactlyWhenNoneTaken` | src/messaging_implementation/ZmqZmfMessagingServiceImplementation.cpp:607-617 | From the moment a disable has cleared the waiting requests, in any interleaving: the answers sent stay within the requests received since, in every continuation, if and only if no thread had then taken a request of the identity and not yet sent its answer. |
| `Sections.AnswerMayOutliveDisable` | src/messaging_implementation/ZmqZmfMessagingServiceImplementation.cpp:607-617 | The failing side of that, step by step: an answer taken before a disable, with nothing in between but the disable, leaves after it. |
| `Sections.EveryInterleaving` | src/messaging_implementation/ZmqZmfMessagingServiceImplementation.cpp:206-373 | All of this at every step of every interleaving of any number of threads, and all requests are accounted for. |
| `Sections.SocketsUsedUnderLock` | src/messaging_implementation/ZmqZmfMessagingServiceImplementation.cpp:206-373 | What is sent to a peer leaves, and a socket comes or goes, only while no thread is between changing a socket and sending the token. |
| `Sections.AloneIsOneStep` | src/messaging_implementation/ZmqZmfMessagingServiceImplementation.cpp:206-373 | The pieces of an operation that nothing comes between do exactly what the operation does as one step of the service. |
| `Locks.ProgramIsDisciplined` | src/messaging_implementation/ZmqZmfMessagingServiceImplementation.cpp:206-379 | Every operation takes a second lock only while it holds just the lock of the request sockets, and ends with none. |
| `Locks.LockedExactlyForUse` | src/messaging_implementation/ZmqZmfMessagingServiceImplementation.cpp:206-617 | Which operations take a lock, for each of the eight locks: exactly those that touch what it guards. |
| `Locks.NestedExactlyForPeers` | src/messaging_implementation/ZmqZmfMessagingServiceImplementation.cpp:206-339 | A second lock is taken in two places only, under that of the request sockets: for queue and token when a peer gains or loses its socket, and for the promise of a request whose target has none. |
| `Locks.NextKeepsSound` | src/messaging_implementation/ZmqZmfMessagingServiceImplementation.cpp:206-379 | Every lock or unlock step keeps the discipline and mutual exclusion. |
| `Locks.TwoWaitsAtMost` | src/messaging_implementation/ZmqZmfMessagingServiceImplementation.cpp:206-379 | What a waiting thread waits for may be held by a waiting thread; what that one waits for is not. |
| `Locks.NoCircle` | src/messaging_implementation/ZmqZmfMessagingServiceImplementation.cpp:206-379 | No reachable state of any number of threads has a circle of waiting threads. |
| `Locks.SomeThreadGoesOn` | src/messaging_implementation/ZmqZmfMessagingServiceImplementation.cpp:206-379 | In every reachable state some thread can go on, or all are finished and no lock is held. |
| `Locks.RunsEnd` | src/messaging_implementation/ZmqZmfMessagingServiceImplementation.cpp:206-379 | Every run ends after as many steps as the programs have. |
| `Dispatch.PushKeepsOrder` | src/core/ModuleEventDispatcher.cpp:104-122 | An enqueued pair of item and token keeps one token per item and the urgent tokens in front. |
| `Dispatch.PopKeepsOrder` | src/core/ModuleEventDispatcher.cpp:171-192 | A token always finds an item of its own kind, so the delivery thread does not wait for one. |
| `Dispatch.StepKeepsOrder` | src/core/ModuleEventDispatcher.cpp:95-128 | Every step keeps tokens and queues matched, urgent tokens first, and the event queue within a positive limit. |
| `Dispatch.FirstInFirstOut` | src/core/ModuleEventDispatcher.cpp:171-206 | In every run, for each kind, the items taken since the last clear followed by those that wait are those accepted, in order. |
| `Dispatch.MatchingInOrder` | src/core/ModuleEventDispatcher.cpp:208-231 | An event goes to exactly the handlers whose topic it starts with, once each, by ascending number. |
| `Dispatch.SelectedInOrder` | src/core/ModuleEventDispatcher.cpp:208-231 | Of those, exactly the ones at whose turn the module is enabled are called, in the same order; all of them if it is enabled throughout. |
| `Dispatch.SystemReplyNamesCommand` | src/core/ModuleEventDispatcher.cpp:335-353 | The answer to a system request begins with the code of a command exactly when that command was recognized, so an unknown request is never taken as a success. |
| `Dispatch.SystemRequestIsServed` | src/core/ModuleEventDispatcher.cpp:335-353 | A system request, by its topic [3, 255], is never queued; its sender is answered at once under [4, 255], and the core is told to enable for [3], to disable for [1], to stop for [2], and nothing else otherwise. |
| `Dispatch.EventQueuedExactly` | src/core/ModuleEventDispatcher.cpp:95-128 | An event is queued exactly when the dispatcher is alive and fewer events wait than a positive limit; a start sets the limit. |
| `Dispatch.RequestQueuedExactly` | src/core/ModuleEventDispatcher.cpp:109-122 | Any other request is queued exactly when the dispatcher is alive, to be answered to its sender. |
| `Dispatch.ReplyAtOnceIsSent` | src/core/ModuleEventDispatcher.cpp:244-294 | A module enabled at its turn gets the request; what it replies at once leaves for the sender, which waits no longer; without such a reply nothing leaves and the request waits on; a module not enabled gets nothing. |
| `Dispatch.OtherItemsAreDelivered` | src/core/ModuleEventDispatcher.cpp:208-231 | An event reaches the matching handlers and a change of state the module, as far as it is enabled, and neither touches the messaging service. |
| `Dispatch.PeerChangeTakesEffect` | src/core/ModuleEventDispatcher.cpp:319-333 | A peer's change of state is queued urgently; one that was Dead joins the service and one that is Dead leaves it, and where the service must act and is not alive nothing happens. |
| `Dispatch.DisablingClears` | src/core/ModuleEventDispatcher.cpp:48-93 | A disable, and a stop, leave no item and no token waiting; over an alive service also no subscription, no waiting request, and no outstanding promise or no socket. |
| `Dispatch.EnabledAndNumbered` | src/core/ModuleEventDispatcher.cpp:53-148 | In every run the dispatcher is alive exactly from an enabling until the next disable or stop, and the numbers of subscriptions count up from zero over all of them. |
| `Subscriptions.InsertTopics` | src/core/ModuleEventDispatcher.cpp:141-144 | An entry is added in order under a free number, and not at all under a taken one. |
| `Subscriptions.EraseTopics` | src/core/ModuleEventDispatcher.cpp:152-154 | Exactly the entry with the number goes. |
| `Subscriptions.UnsubscribeAllDrains` | src/core/ModuleEventDispatcher.cpp:82-86 | Disabling withdraws one filter per handler. |
| `Subscriptions.StartAgrees` | src/core/ModuleEventDispatcher.cpp:24-46 | After a stop and a start table and filters, with the queue folded in, agree whenever they did before: the queue that is taken over leaves no filter. |
| `Subscriptions.CatchesUpAfterRestartIffDrained` | src/core/ModuleEventDispatcher.cpp:48-91 | Whether the SUB socket gets there: after a stop and a start, at any moment, it can catch up with the table exactly when at the stop nothing was queued and nothing subscribed; otherwise as many changes always wait. |
| `Subscriptions.StepAgreesExactlyWhenCareful` | src/core/ModuleEventDispatcher.cpp:134-157 | Filters (with queued changes) and table agree after a step, starts and stops included, exactly when it subscribes under a free number or unsubscribes a handle that is in the table, or whose number and topic are both unused. |
| `Subscriptions.FiltersAgreeWithTable` | src/core/ModuleEventDispatcher.cpp:134-157 | From any state with nothing subscribed, with counter and subscriptions below 2^32 and handles unsubscribed as above, they agree, with the queue folded in, at every step of every run, across any number of disables, stops and starts. |
| `Subscriptions.ThoughtfulIsCareful` | src/core/ModuleEventDispatcher.cpp:134-157 | Calls that unsubscribe only handles handed out since the last disable and not unsubscribed since, judged by the calls alone, are such a run. |
| `Subscriptions.ThoughtfulCallersAgree` | src/core/ModuleEventDispatcher.cpp:134-157 | For such callers filters and table agree at every step, across stops and starts, and the table holds exactly the handles handed out and not yet given back. |
| `Subscriptions.FilterPassesExactlyWhenHandled` | src/core/ModuleEventDispatcher.cpp:203-242 | Once the queue is drained a message passes the filters exactly when delivering it finds a handler. |
| `Subscriptions.UnsubscribedTwice` | src/core/ModuleEventDispatcher.cpp:150-157 | Unsubscribing one handle twice leaves another handler of the topic without a filter. |
| `Dispatcher.ModuleEventDispatcher.Start` | src/core/ModuleEventDispatcher.cpp:24-46 | Starts the service, if its sockets can be bound and it was not alive, and joins the own instance. |
| `Dispatcher.ModuleEventDispatcher.OnEnable` | src/core/ModuleEventDispatcher.cpp:53-57 | The dispatcher is alive; nothing else changes. |
| `Dispatcher.ModuleEventDispatcher.OnDisable` | src/core/ModuleEventDispatcher.cpp:59-91 | An alive dispatcher ends with empty queues and table, every handler unsubscribed, and the service disabled. Over a service that is not alive it fails half-way: queues empty, table kept. |
| `Dispatcher.ModuleEventDispatcher.Stop` | src/core/ModuleEventDispatcher.cpp:48-51 | Disables, then stops the service; either way both end not alive. |
| `Dispatcher.ModuleEventDispatcher.OnSubMsgReceived` | src/core/ModuleEventDispatcher.cpp:95-107 | The event is queued at the back unless the dispatcher is not alive or the queue is full. |
| `Dispatcher.ModuleEventDispatcher.OnRequestMsgReceived` | src/core/ModuleEventDispatcher.cpp:109-123 | A system request is served at once, or fails over a service that is not alive and has no effect; another is queued urgently while alive. |
| `Dispatcher.ModuleEventDispatcher.HandleSystemMessage` | src/core/ModuleEventDispatcher.cpp:335-353 | Answers with the code of the command, or the text for an unknown one, and passes on the command; over a service that is not alive it fails before the command. |
| `Dispatcher.ModuleEventDispatcher.OnPeerChange` | src/core/ModuleEventDispatcher.cpp:319-333 | Joins a peer that comes, drops one that goes, and queues the change urgently, alive or not; fails only when the service must act and is not alive. |
| `Dispatcher.ModuleEventDispatcher.Subscribe` | src/core/ModuleEventDispatcher.cpp:134-148 | Enters the next number and hands out its handle; fails when not alive, and over a service that is not alive, where the entry stays. |
| `Dispatcher.ModuleEventDispatcher.Unsubscribe` | src/core/ModuleEventDispatcher.cpp:150-157 | Erases the number and unsubscribes the topic; fails when not alive, and over a service that is not alive, where the number is gone. |
| `Dispatcher.ModuleEventDispatcher.DeliverNotification` | src/core/ModuleEventDispatcher.cpp:171-192 | Takes one token and the oldest item of its kind and makes its callbacks; no data queue is waited on. |
| `Dispatcher.ModuleEventDispatcher.DeliverEvent` | src/core/ModuleEventDispatcher.cpp:203-242 | The loop over the handlers calls exactly the matching ones, in order, at whose turn the module is enabled. |
| `Dispatcher.ModuleEventDispatcher.DeliverRequest` | src/core/ModuleEventDispatcher.cpp:244-294 | The request goes to an enabled module; an immediate reply is sent to the identity of the request, a promised one is given the service and that identity, and no reply does neither. |
| `Dispatcher.RespondWith` | include/zmf/ZmfOutReply.hpp:37-81 | From making the reply to the wire: an immediate reply leaves for the sender of the request, which waits no longer; an immediate one that was moved leaves empty; a promised one or none leaves nothing. |
| `OutReply.ZmfOutReply.Moved` | include/zmf/ZmfOutReply.hpp:81-81 | Moving a reply keeps its type and whether it is finished, and loses its message, service and identity. |
| `OutReply.ZmfOutReply.InjectService` | include/zmf/ZmfOutReply.hpp:73-79 | The reply has the service and the identity it is to be sent with. |
| `OutReply.ZmfOutReply.SendFutureReply` | include/zmf/ZmfOutReply.hpp:37-49 | A promised reply is sent once, to the identity it was given; without a service the caller waits, and over a service that is not alive the promise stays. |
| `OutReply.PromiseLostByMoving` | include/zmf/ZmfOutReply.hpp:37-81 | A module that keeps its promise and returns an object moved from it waits for ever to send it, whatever the service, the identity and the message. |
| `ModuleMutex.StepKeepsSound` | src/core/ZmfCore.cpp:145-200 | Whoever is inside the module holds its mutex, the table of handlers belongs to the enable or disable function at a subscription and to the delivery of an event, and the places of the two threads say whether dispatcher and module are on. |
| `ModuleMutex.NeverBothInside` | src/core/ModuleEventDispatcher.cpp:203-317 | In every interleaving the instance loop and the delivery thread are never inside together, a delivery that is inside ends before the module is enabled or disabled, and a callback for a request or a change of state finds the table free. |
| `ModuleMutex.StepKeepsBarred` | src/core/ModuleEventDispatcher.cpp:203-317 | What stands against switching the module on, or off, stands for ever. |
| `ModuleMutex.CanSettleExactlyWhenNotBarred` | src/core/ModuleEventDispatcher.cpp:203-317 | In every interleaving the loop can still come to have the module on (or has), and can still come to have it off (or has), if and only if nothing stands against it: no mutex left locked, no waits of loop and delivery crossed over the table, no callback waiting for its own delivery, no request on its way to a module that is not enabled, each as far as it matters for on or for off. |
| `ModuleMutex.RequestLocksOut` | src/core/ZmfCore.cpp:145-200 | It can happen in two places: between starting the dispatcher and enabling the module, and between disabling the module and stopping the dispatcher. |
| `ModuleMutex.SubscribingCrosses` | src/core/ModuleEventDispatcher.cpp:134-157 | An enable or disable function that subscribes while a matching event is delivered waits for that delivery, which waits for it: the module comes to be neither on nor off. |
| `ModuleMutex.FirstEnablingCanCross` | src/core/ZmfCore.cpp:158-162 | It can happen at the first enabling. |
| `ModuleMutex.SubscribingInCallbackWedges` | src/core/ModuleEventDispatcher.cpp:208-231 | A callback for an event that subscribes waits for the table that its own delivery has locked, and the module is never switched off. |
| `ModuleMutex.SomeoneGoesOn` | src/core/ModuleEventDispatcher.cpp:203-317 | In every interleaving, while no mutex is left locked, no waits are crossed and no callback waits for its own delivery, somebody can go on as long as the loop or the delivery thread has something to do. |
| `ModuleMutex.EveryTurnComes` | src/core/ModuleEventDispatcher.cpp:203-242 | A matching event gets every one of its turns, if nobody takes the module in between, and its delivery is over after them. |
| `ModuleMutex.StoppedDeliveryEnds` | src/core/ModuleEventDispatcher.cpp:171-201 | After the dispatcher was stopped, a delivery thread that comes back to its head ends. |
| `ModuleMutex.CrossedExactlyBy` | src/core/ModuleEventDispatcher.cpp:203-231 | The waits are crossed by exactly two steps: an enable or disable function comes to the table while a matching event waits for the module, or a matching event gets to the table before the function that has come to it. |
| `ModuleMutex.LeftLockedExactlyBy` | src/core/ModuleEventDispatcher.cpp:244-316 | The mutex is left locked by exactly two steps: the end of a request that found the module not enabled, and the end of a change of state on which the module threw. |
| `Membership.StepRunsService` | src/core/ModuleEventDispatcher.cpp:24-91 | Every event of the dispatcher is a run of the service, so what every run of the service keeps, the dispatcher keeps. |
| `Membership.NoteStaysConnected` | src/core/ModuleEventDispatcher.cpp:319-333 | A reported change that fits the chain of its peer keeps every known peer connected. |
| `Membership.StepStaysConnected` | src/core/ModuleEventDispatcher.cpp:319-333 | Broadcasts, ticks and every event of the dispatcher keep all three components together. |
| `Membership.PeersStayConnected` | src/core/ModuleEventDispatcher.cpp:319-333 | In every run of an epoch every registered peer has a request socket, tokens match the queue, and the drained SUB socket is connected to exactly the peers with a request socket. |
| `Membership.SocketExactlyWhenRegistered` | src/core/ModuleEventDispatcher.cpp:319-333 | In every run of an epoch in which the own instance is not taken for a peer, whoever does not greet has a request socket exactly when it is registered, and the own instance always has one. |
| `Membership.SocketsAreRegistered` | src/core/ModuleEventDispatcher.cpp:319-333 | With no greeting at all, the peers with a request socket are exactly the registered ones and the own instance. |
| `Membership.StartIsConnected` | src/core/ModuleEventDispatcher.cpp:39-45 | A node that has just started is in such a state: nobody is registered and it has a socket to itself alone. |
| `Lifecycle.StepKeepsAgreement` | src/core/ZmfCore.cpp:145-200 | Every request, pass, start and finish keeps the four views of the module in agreement. |
| `Lifecycle.ViewsAgree` | src/core/ZmfCore.cpp:145-299 | In every run, between passes: module active, automaton enabled, dispatcher alive and announced Active are all true or all false, and a stopped instance has announced Dead last. |
| `Lifecycle.ActivityChanges` | src/core/ZmfCore.cpp:220-262 | The module becomes active exactly in a pass of a running instance that was asked, with dependencies and identity in order and a successful enable; it becomes inactive exactly in a pass that serves a disable or misses a dependency, or at the end. |
| `Lifecycle.StopIsRequestedExactly` | src/core/ZmfCore.cpp:117-332 | In every run an instance comes to be asked to stop exactly by stopInstance while started, by a request while started or wished, by a pass that finds the id of an active module taken, or by a failed enabling that is to end it; only an effective start withdraws that. |
| `Lifecycle.EnablingIsRequestedExactly` | src/core/ZmfCore.cpp:225-332 | In every run enabling comes to be wished exactly by a request while inactive, an effective start with automatic enabling, or a pass that loses dependencies; and it ceases to be exactly by a request to disable or stop, by stopInstance before the start, by a pass that tries, or by a start without it. |
| `Lifecycle.DisablingIsRequestedExactly` | src/core/ZmfCore.cpp:225-322 | In every run disabling comes to be wished exactly by a request while active or wished, and ceases to be exactly by a pass of the active module or a request to enable an inactive one. |
| `Lifecycle.RunsExactly` | src/core/ZmfCore.cpp:60-299 | In every run an instance is started from an effective start until its loop, asked to stop, has ended, counts as stopped from then until a start is tried, and ends on a failed enabling as its last effective start said. |
| `Lifecycle.FlagsFollowHistory` | src/core/ZmfCore.cpp:60-332 | In every run each flag of the core is set exactly when some step of the history set it and none has cleared it since: the requests to stop, enable and disable, whether a failed enabling ends the instance, and whether a start was tried since it last stopped. |
| `Lifecycle.ChangesAreAnnounced` | src/core/ZmfCore.cpp:164-199 | In every run each change of state is announced when it happens, one step at a time, each beat of a started instance repeats the current state, and nothing else is announced. |
| `Lifecycle.AnnouncementsFollow` | src/core/ZmfCore.cpp:164-199 | In every run the announced states change only from Dead to Inactive, between Inactive and Active, and from Inactive to Dead. |
| `Lifecycle.StepKeepsOneWish` | src/core/ZmfCore.cpp:304-322 | Enabling and disabling are not both requested, except exactly when an automatic start meets a disable request left over from before. |
| `Lifecycle.LeftOverDisableStrikes` | src/core/ZmfCore.cpp:94-106 | A disable request left over while the instance is stopped makes the module that one pass after the next start enables inactive again after another pass, whatever that pass finds. |
| `Lifecycle.DisableRequestSurvivesStop` | src/core/ZmfCore.cpp:117-142 | There is such a request: one that stopInstance overtakes. |
| `Lifecycle.NotUniqueAtStartStillRuns` | src/core/ZmfCore.cpp:97-106 | The stop asked for at a start with a taken id is lost: the instance runs, though it is not enabled while the id is taken. |
| `Lifecycle.OneCallbackPerStart` | src/core/ZmfCore.cpp:270-299 | In every run the owner is told of the stop exactly once for each start that took effect, except for one that still runs. |
| `Lifecycle.JoinableExactly` | src/core/ZmfCore.cpp:106-107 | In every run there is a thread to be joined exactly when some start took effect and nobody joined its thread after its loop ended. |
| `Lifecycle.TerminatesExactlyWhenNotJoined` | src/core/ZmfCore.cpp:106-107 | In every run the process is ended by dropping an unjoined thread exactly when two starts on one core took effect and nobody joined the thread of the first in between. |
| `Lifecycle.StopJoins` | src/core/ZmfCore.cpp:117-142 | stopInstance ends the loop and joins its thread, so the next start ends nothing. |
| `Lifecycle.RestartIsFresh` | src/core/ZmfCore.cpp:60-114 | A finished instance starts as a new one, except for a disable request left over; and the start ends the process if the last thread was not joined. |
| `Instance.AbstractModule.InternalEnable` | src/AbstractModule.cpp:17-45 | A disabled module ends enabled or disabled as its enable function decides; any other is left alone and called a success. |
| `Instance.AbstractModule.InternalDisable` | src/AbstractModule.cpp:47-60 | An enabled module ends disabled; any other is left alone. |
| `Instance.ZmfCore.CheckDependenciesSatisfied` | src/core/ZmfCore.cpp:203-215 | True exactly when every type depended on has an active peer in the registry. |
| `Instance.ZmfCore.ModuleIsUnique` | src/core/ZmfCore.cpp:386-389 | True exactly when the own id is not registered. |
| `Instance.ZmfCore.EnableModule` | src/core/ZmfCore.cpp:145-177 | Enables dispatcher and module and announces Active, or takes the dispatcher down again. |
| `Instance.ZmfCore.DisableModule` | src/core/ZmfCore.cpp:179-200 | Takes module and dispatcher down and announces Inactive. |
| `Instance.ZmfCore.LoopPass` | src/core/ZmfCore.cpp:225-257 | One pass, decided by what the registry holds. |
| `Instance.ZmfCore.OnInstanceStopped` | src/core/ZmfCore.cpp:270-299 | Disables, tells the owner once, announces Dead as the last announcement and stops the services. |
| `Instance.ZmfCore.FinishLoop` | src/core/ZmfCore.cpp:264-267 | The loop ends once and stops the instance. |
| `Instance.ZmfCore.StartInstance` | src/core/ZmfCore.cpp:60-114 | Starts service, discovery and loop, or gives up where one of them fails. |
| `Instance.ZmfCore.StopInstance` | src/core/ZmfCore.cpp:117-142 | Asks the loop to stop, waits for its end and joins its thread; before a start, only a wish to enable is taken back. |
| `Instance.ZmfCore.JoinExecution` | src/core/ZmfCore.cpp:334-348 | Joins the thread of a loop that has ended; while the loop runs the caller waits. |
| `Instance.ZmfCore.RequestEnableModule` | src/core/ZmfCore.cpp:304-312 | Ignored while active; otherwise the last wish wins. |
| `Instance.ZmfCore.RequestDisableModule` | src/core/ZmfCore.cpp:314-322 | Ignored when neither active nor wished; otherwise the last wish wins. |
| `Instance.ZmfCore.RequestStopInstance` | src/core/ZmfCore.cpp:324-332 | Ignored when neither started nor wished. |
| `Instance.ZmfCore.Obey` | src/core/ModuleEventDispatcher.cpp:335-353 | A command of a system request is the request of that name. |
| `Instance.RemoteCommandTakesEffect` | src/core/ModuleEventDispatcher.cpp:335-353 | End to end: after data [3] the enabling of an inactive module is wished, after [1] the disabling of an active or wished one, after [2] a started or wished instance is asked to stop; otherwise, and for other data, nothing changes. |
| `Cascade.PassSettles` | src/core/ZmfCore.cpp:225-257 | A pass keeps the wish and leaves the module active exactly when it is wished and the dependencies are there. |
| `Cascade.PassKeepsWishes` | src/core/ZmfCore.cpp:225-257 | A pass of one instance keeps every instance's wish and touches no other instance. |
| `Cascade.GoalDependsOnWishes` | src/core/ZmfCore.cpp:203-215 | Which instances end up active depends on the wishes alone. |
| `Cascade.RoundsSettle` | src/core/ZmfCore.cpp:225-262 | Each round of passes, in any order, settles one more rank of the dependencies. |
| `Cascade.CascadeConverges` | src/core/ZmfCore.cpp:203-262 | After one round more than the deepest rank, every instance is active exactly when it wishes to be and every type it depends on has an active instance. |
| `Cascade.SettledIsAtRest` | src/core/ZmfCore.cpp:225-262 | That is so exactly when no pass of any instance changes anything. |
| `Cascade.RestIsUnique` | src/core/ZmfCore.cpp:225-262 | Two systems at rest with the same wishes have the same active instances. |
| `MessageTypes.ValueOfBigEndian` | include/zmf/MessageType.hpp:114-135 | Decoding a big-endian form gives the number back. |
| `MessageTypes.AppendedResult` | include/zmf/MessageType.hpp:105-108 | All bytes are appended exactly when the result stays under 32; otherwise those remain that fill it to 32, at least one. |
| `MessageTypes.AppendedNumber` | include/zmf/MessageType.hpp:114-135 | A 16, 32 or 64-bit number that fits is appended as bytes that decode to it. |
| `MessageTypes.TextIsInjective` | include/zmf/MessageType.hpp:86-95 | The text of a non-empty match decodes to the match and, behind its one bar, to its length, so different matches have different texts. |
| `MessageTypes.MessageType.FromBytes` | include/zmf/MessageType.hpp:44-46 | Fails exactly from 32 bytes on. |
| `MessageTypes.MessageType.AppendMatch8` | include/zmf/MessageType.hpp:105-108 | The byte stays appended even when the call fails. |
| `MessageTypes.MessageType.AppendMatch16` | include/zmf/MessageType.hpp:114-117 | Appends the two-byte big-endian form until the match is too long. |
| `MessageTypes.MessageType.AppendMatch32` | include/zmf/MessageType.hpp:123-126 | Appends the four-byte big-endian form until the match is too long. |
| `MessageTypes.MessageType.AppendMatch64` | include/zmf/MessageType.hpp:132-135 | Appends the eight-byte big-endian form until the match is too long. |
| `MessageTypes.MessageType.TrimToLength` | include/zmf/MessageType.hpp:97-99 | Cuts the match or fills it with zeros, to any length. |
| `MessageTypes.MessageType.OverridePrefixWith` | include/zmf/MessageType.hpp:146-153 | The result starts with the prefix and keeps the old rest; a longer prefix changes nothing and fails. |
| `MessageTypes.MessageType.ContainsTopic` | include/zmf/MessageType.hpp:172-174 | True exactly when this match is a prefix of the other. |
| `MessageTypes.MessageType.ToString` | include/zmf/MessageType.hpp:86-95 | The decimals of the bytes between dots, a bar and the length. |
| `InReply.StepIsGood` | include/zmf/ZmfInReply.hpp:28-43 | Sending, moving, destroying and cancelling keep the use counts exact, every outstanding request held, and its future in at most one handle. |
| `InReply.OutstandingIsHeld` | include/zmf/ZmfInReply.hpp:28-43 | In every run, after any chain of moves, every outstanding request has a handle that still exists. |
| `InReply.HandlesCallService` | include/zmf/ZmfInReply.hpp:28-75 | What happens to the handles is for the service a request, its own steps, and the cancelling of a request by the last handle to go or by any that is asked to; moving a handle, or dropping one of several, is nothing. |
| `InReply.DestroyCancelsLast` | include/zmf/ZmfInReply.hpp:39-43 | Below 2^64 requests, destroying a handle abandons its own request exactly when it was the last one and the request was outstanding, and never another request. |
| `InReply.ZmfInReply.Moved` | include/zmf/ZmfInReply.hpp:36-37 | The future moves to the new handle; both handles share the number. |
| `InReply.ZmfInReply.Destroy` | include/zmf/ZmfInReply.hpp:39-43 | Only the last handle of a number cancels it. |
| `InReply.ZmfInReply.CancelRequest` | include/zmf/ZmfInReply.hpp:73-75 | Cancels the request whoever shares it. |
| `InReply.SendRequest` | src/messaging_implementation/ZmqZmfMessagingServiceImplementation.cpp:303-339 | A request sent by an alive service is handed out with a handle that alone holds its number and its future. |

## Left out

- Sockets, multicast, the poller, ports and `getIp`: addresses are abstract and name endpoints, so the loopback address an instance joins itself under is its own address; a packet is an entry in its sender's log.
- Configuration, logging, consoles, demos, the module creator and the build: plumbing.
- Poco queues: enqueueing at the back, urgently at the front, and dequeueing from the front are taken as given; of `wakeUpAll` and of joining threads only what ModuleMutex and Lifecycle say is modelled.
- Start and stop of discovery, and its receive loop: receptions and ticks are events in any order; in Detector's runs discovery is started and not stopping.
- Wire: unknown fields are skipped and not kept; the library's stream functions, which are not part of the repository, are modelled from the format and from how they treat limits; the library's limit on nested groups, total sizes beyond 2^31-1, UTF-8 checks, reflection and Swap are left out.
- Proto.StateBroadcastMessage.MergeFrom: the other message is a different object with its own nested SenderId, as the code asserts.
- Registry.PeerRegistry.UpdatePeerState: what a program does after it has used an empty handle.
- Discovery.PeerDiscoveryService.UpdatePeerTimeouts: the order in which expired peers are dropped is left open, where the code takes the order of its map.
- Service.StepKeepsTokens: holds for one epoch between start and stop, because stopping leaves the queues; Service.RestartKeepsTokensIffDrained says when it carries over.
- Service.StepKeepsMembers: assumes one publish address per peer.
- Membership.SocketExactlyWhenRegistered: one epoch, and runs in which the instance is not taken for its own peer; Connections.SocketsFollowCalls is about all runs.
- Network.ValueIsTargetsAnswer: assumes distinct ids and addresses, peers that join with their real address, no crash and restart under the same id, and at most 2^64 requests per node.
- Sections.EveryInterleaving: one epoch, with single-lock operations as one step; the failing branch of a send, which holds two locks, is one step.
- Locks.NoCircle: the wait for the poller thread in `stop`, exceptions thrown by sockets are left out; the module's mutex and that of the handlers are the subject of ModuleMutex.
- Dispatch.FirstInFirstOut: an item and its token are enqueued in one step, and disabling is one step.
- Dispatcher.ModuleEventDispatcher.DeliverRequest: exceptions thrown by a module count as no reply; how long a reply object lives, and moves that the compiler leaves out, are not modelled.
- ModuleMutex.CanSettleExactlyWhenNotBarred: a wake-up that comes just before the delivery thread waits; what else the module's functions wait for; and the module's own threads, which lock the table for one step at a time. Dispatcher, Lifecycle and Instance take enabling, disabling and each delivery as one step; ModuleMutex is about what lies between.
- Dispatcher.ModuleEventDispatcher.OnDisable: an exception that leaves it half-way is a result of false, and the mutex of the handlers, which it leaves locked, is not modelled.
- Dispatcher.ModuleEventDispatcher.DeliverEvent: a callback that subscribes or unsubscribes, after which the delivery does not end (ModuleMutex.SubscribingInCallbackWedges); requests that callbacks send are events of their own.
- Instance.ZmfCore.StopInstance: while it waits, nothing but the end of the loop happens; other threads come before or after.
- Lifecycle.ViewsAgree: each request and each pass of the loop is one step, although the code does not read and write its flags atomically together.
- Cascade.CascadeConverges: registries are accurate at every pass, ids are unique, enabling succeeds and no new requests come.
- MessageTypes.MessageType.ToString: the empty match, on which the code is undefined.
- InReply.ZmfInReply.Destroy: waiting for and getting the value of a future are not modelled.
- Publishing, and the orderings of identities: one-line forwarding and plain comparisons.
