# Replication core of mmo-tech's `network` crate, in Dafny

This project models the `network` crate of mmo-tech, a small Rust/bevy library that
replicates game objects between a server and its clients. It models:

- **Peer addressing.** `Actor`, `NetworkTarget` and `targeted_by`.
- **The `ConnectionManager`.**
  - The connection table and the `ActorId -> ConnectionId` index.
  - The in-process loopback connection `0`.
  - Target resolution, batched `send` and stamped `receive`.
  - Removal, the id generators and local re-keying.
  - Connect-time handshake resolution.
- **Wire framing.** The 8-byte big-endian length prefix and the `next_len` retry state.
- **The `NetworkEntityRegistry`.**
- **Spawn tracking.** The `SpawnManager` and the per-tick spawn detection.
- **The receiving side of spawning.** This is `spawn_system`'s registry insert.
- **The `NetworkHandle` queues.** These include the conversion of spawn requests into payloads.
- **Replicated attributes.** `ComponentSync<T>` and its four systems.
- **The accept loop.**
- **The per-tick transport systems.**
- **The two role configurations.**

Every operation is a pure function, or a method with a loop, over immutable datatypes. Iteration is modelled as follows:

- Every Rust `HashMap` whose iteration order matters is modelled as a map plus an explicit `order` sequence.
- The predicate `Enumerates` requires that sequence to list every key exactly once. The properties therefore hold for every iteration order.

Serialisation is a parameter:

- The CBOR codec is a `Codec`, two function values.
- `ValidCodec` states what the core relies on:
  - decoding undoes encoding;
  - an encoded batch is non-empty;
  - an encoded batch is shorter than 2^64 bytes.
- Attribute encoders and spawn callbacks are function parameters.

A socket is modelled as two byte strings:

- `avail` holds the bytes delivered by the peer and not yet read.
- `outbox` holds the bytes written.

Write outcomes and socket faults are parameters.

Files (one module each):

- `addressing.dfy`: `Addressing`.
- `message.dfy`: `Messages`.
- `framing.dfy`: `Framing`.
- `connection_manager.dfy`: `Connections`.
- `network_entity.dfy`: `Registry`.
- `spawnable.dfy`: `Spawning`.
- `handle.dfy`: `Handles`.
- `component_sync.dfy`: `ComponentSyncing`.
- `listener.dfy`: `Listening`.
- `communication.dfy`: `Communication`.
- `settings.dfy`: `Settings`.

## Model

| member | source | states |
|---|---|---|
| Connections.LocalActor | network/src/connection_manager.rs:366-369 | The local actor exists exactly when the local id is indexed to a live connection. In a valid manager it is the loopback's actor. |
| Connections.New | network/src/connection_manager.rs:192-218 | A new manager is valid and has exactly one connection, `0`. That connection is an empty loopback owned by actor `0` of the given role. The index maps `0 -> 0`, both generators start at 1 and the local actor id is 0. |
| Connections.TargetedConnectionIds | network/src/connection_manager.rs:244-265 | `All` resolves to every table key. `ActorId` resolves to at most one connection, and to none exactly when the id is not indexed. `ActorTy` resolves to a subset of the table. |
| Connections.TargetedActorIds | network/src/connection_manager.rs:221-242 | Under a consistent index, every target (`All`, `ActorId` or `ActorTy`) reports exactly the actor ids of the live connections it resolves to. An `ActorId` target reports at most the id itself. |
| Connections.TargetingCorrect | network/src/connection_manager.rs:40-46 | Under a consistent index, a target resolves to exactly the live connections whose actor is `targeted_by` it. |
| Connections.ActorResolutionAgrees | network/src/connection_manager.rs:221-265 | Under a consistent index, actor-id resolution reports exactly the actor ids of the connections that connection-id resolution returns. |
| Connections.ActorIdTargetsOne | network/src/connection_manager.rs:251-257 | Addressing a live connection by its actor's id reaches that connection alone. |
| Connections.GroupIsBatchFor | network/src/connection_manager.rs:271-280 | The grouping loop builds one batch per destination. Each batch equals the reference `BatchFor`: every payload routed to that connection, in input order. |
| Connections.BatchForMembers | network/src/connection_manager.rs:273-279 | A payload is in a connection's batch exactly when some input entry carries it with a target that resolves to that connection. |
| Connections.BatchForAppend | network/src/connection_manager.rs:273-279 | The batches of two concatenated inputs are the concatenated batches. |
| Connections.SendEvents | network/src/connection_manager.rs:282-297 | An event is in the list exactly when it is the `Disconnected` event, naming the connection, its actor and the cause, of a visited live connection whose send failed. Every event names a visited connection. For a repeat-free order, no connection is reported twice and there are at most as many events as visited connections. |
| Connections.Send | network/src/connection_manager.rs:267-298 | Only the connections' transports change. The table keys, the actors, the index and the generators are unchanged. No connection is removed. |
| Connections.SendDelivers | network/src/connection_manager.rs:267-298 | A non-destination is untouched. A loopback gets its batch appended. A stream's buffered input is kept, and a stream whose writes succeed has one frame of its batch appended to its output. |
| Connections.SendReports | network/src/connection_manager.rs:282-297 | Every event is a `Disconnected` for a targeted stream connection, carrying its actor. Every targeted connection whose send fails has one. No connection is reported twice, and there are at most as many events as destinations. |
| Connections.SendKeepsValid | network/src/connection_manager.rs:267-298 | Sending keeps the manager valid. |
| Connections.Stamp | network/src/connection_manager.rs:312-319 | Each payload becomes, in order, a message with the given sender and receiver. |
| Connections.Collect | network/src/connection_manager.rs:309-331 | Messages are exactly the drained payloads: each is stamped with its connection's actor as sender and the local actor as receiver, and every drained payload appears. Events are exactly the failed drains. |
| Connections.Receive | network/src/connection_manager.rs:300-334 | Every connection's transport is replaced by its drained state and nothing else changes. In a valid manager the result is valid and the loopback is left empty. |
| Connections.ReceiveCollects | network/src/connection_manager.rs:300-334 | Every received message is addressed to the local actor and comes from a connection's actor. Every drained payload is received as such a message. |
| Connections.ReceiveNeverDisconnectsLocal | network/src/connection_manager.rs:323-329 | Receiving never reports the loopback or the local actor as disconnected. |
| Connections.LoopbackDelivers | network/src/connection_manager.rs:309-321 | Every payload queued on the loopback is received as a message from the local actor to itself. |
| Connections.LoopbackDrains | network/src/connection_manager.rs:140 | Draining the loopback returns its whole queue and leaves it empty. |
| Connections.Remove | network/src/connection_manager.rs:356-360 | The actor is no longer indexed. Its connection and index entry are deleted together. An unknown actor changes nothing. The generators and local ids are untouched. |
| Connections.RemoveKeepsValid | network/src/connection_manager.rs:356-360 | Removing any actor but the local one keeps the manager valid and removes exactly that actor's connection. |
| Connections.GenerateConnectionId | network/src/connection_manager.rs:371-375 | Returns the counter and increments it. A valid manager stays valid, and the id returned is not in use. |
| Connections.GenerateActorId | network/src/connection_manager.rs:377-381 | Returns the counter and increments it. Validity is kept. |
| Connections.SetLocalActorId | network/src/connection_manager.rs:383-397 | The local id becomes the new id. The loopback's index entry moves to the new id and its actor is renamed. All other connections and index entries are unchanged. Validity is kept when the new id is free. |
| Connections.ResolveHandshake | network/src/connection_manager.rs:421-435 | A received `Override` re-keys the local actor and names the peer by the sender id. Otherwise our own `Override` names the peer. Otherwise the peer gets the next generated id. |
| Connections.AddConnection | network/src/connection_manager.rs:399-458 | Reports `Connected` with the resolved peer id and a fresh connection id. It installs an empty stream with no pending length under that id and indexes it by the peer's id, and it advances the generators as the handshake demands. Validity is kept when the ids are fresh. An index whose entries all name live connections keeps that property whatever the handshake. |
| Connections.HandleDisconnects | network/src/connection_manager.rs:461-471 | Every disconnected actor is no longer indexed. Connections only disappear. Validity is kept unless the local actor is named. |
| Connections.CollidingOverrideUnindexesLocal | network/src/connection_manager.rs:399-458 | A received `Override` with equal ids leaves the local actor indexed. After that peer's `Disconnected` is handled, the local actor is no longer indexed, which is the state in which `receive` and `set_local_actor_id` panic. |
| Connections.CollidingOverrideMisaddressesLoopback | network/src/connection_manager.rs:399-458 | On a valid manager, a received `Override` with equal ids leaves every index entry live but the index inconsistent. The loopback's actor id then addresses the new peer alone. |
| Framing.BigEndian | network/src/connection_manager.rs:85 | The big-endian encoding of `n` has the requested width. |
| Framing.FromBigEndian | network/src/connection_manager.rs:115 | The decoded value is below 256^width. |
| Framing.FromBigEndianOfBigEndian | network/src/connection_manager.rs:85 | Decoding the big-endian bytes of `n` gives back `n`. |
| Framing.BigEndianOfFromBigEndian | network/src/connection_manager.rs:115 | Re-encoding a decoded byte string at its width gives back the bytes. |
| Framing.LengthPrefix | network/src/connection_manager.rs:85 | The prefix is 8 bytes long and decodes to the length. |
| Framing.LengthPrefixOfRead | network/src/connection_manager.rs:113-115 | Any 8 bytes are the prefix of exactly one length below 2^64. |
| Framing.Frame | network/src/connection_manager.rs:84-88 | A frame is the 8-byte prefix followed by the body, and its prefix decodes to the body's length. |
| Framing.FramesShape | network/src/connection_manager.rs:84-88 | No batches give no bytes. Otherwise the first batch's prefix, then its body, then the remaining frames. |
| Framing.InnerSend | network/src/connection_manager.rs:82-100 | The loopback appends the batch and succeeds. A stream succeeds exactly when both writes succeed, and then gains exactly one frame. A failure is an I/O error that keeps what was already written. Buffered input is untouched. |
| Framing.ConnectionSend | network/src/connection_manager.rs:151-157 | The transport ends as after the inner send. The send fails exactly when the inner send failed with a non-would-block error. Only streams fail. |
| Framing.ReceiveStep | network/src/connection_manager.rs:103-142 | This is the corrected step (see Findings). The loopback returns its queue and is emptied. A prefix read that fails errors and changes nothing. A step whose peek or body read fails never succeeds, and an error other than would-block or a decode error needs a fault. A success consumes a suffix-preserving prefix of the input and clears `next_len`. A would-block leaves a blocked receiver, and a blocked receiver would block. The only other error is a decode error. |
| Framing.ReceiveStepAsWritten | network/src/connection_manager.rs:103-142 | This is the step as the source is written. With only a prefix available, and a peek that does not fail, it consumes the prefix and returns would-block without storing the length. It agrees with the corrected step for the loopback, for a failing prefix read or peek, and whenever a body byte or a pending length is present. |
| Framing.AsWrittenLosesPendingLength | network/src/connection_manager.rs:122-126 | With a frame's prefix delivered alone, the as-written step leaves a receiver that no longer follows the stream. The corrected step stores the length and stays in step. |
| Framing.ReceiveLoop | network/src/connection_manager.rs:159-177 | Runs the corrected step, with the socket's fault at each successive step. The loopback returns everything after one pass. Payloads only accumulate. Would-block is never reported as an error, and a socket that never fails can only report a decode error. A successful stream receive ends blocked, with its output untouched. |
| Framing.StepKeepsTracks | network/src/connection_manager.rs:103-142 | On a receiver that follows the stream, one step returns the next batch or would-block. Either way it still follows the stream. |
| Framing.LoopKeepsTracks | network/src/connection_manager.rs:159-177 | The receive loop returns the next `k` outstanding batches in order and still follows the stream. With nothing left to arrive, it returns all of them and ends empty. |
| Framing.Arrive | network/src/connection_manager.rs:103-142 | New bytes are appended to the buffered input and nothing else changes. |
| Framing.ReceiveChunks | network/src/connection_manager.rs:159-177 | Receiving after each arrival keeps the transport a stream with its output untouched. |
| Framing.FirstChunkTracks | network/src/connection_manager.rs:159-177 | After the first chunk arrives, the call returns the next `k` batches, ends blocked and still follows the stream. |
| Framing.ChunksKeepTracks | network/src/connection_manager.rs:159-177 | A blocked receiver that follows the stream returns, over all chunks, exactly the outstanding batches. It ends empty with no pending length. |
| Framing.BodyReadFailureKeepsLength | network/src/connection_manager.rs:130-135 | A body read that fails after the peek found the whole body stores the length and leaves the body unread. Repeating the fault changes nothing, and a later healthy step returns the batch. |
| Framing.ErrorDiscardsEarlierFrames | network/src/connection_manager.rs:159-177 | An error in a later step of one call discards the batch of a frame read earlier in that call. Its bytes are consumed and only the error is returned. |
| Framing.FramingRoundTrip | network/src/connection_manager.rs:82-177 | However the frames of a sequence of batches are split by the transport, receiving after each chunk returns exactly the batches' payloads, in order. |
| Framing.SendThenReceive | network/src/connection_manager.rs:82-177 | A successful send writes one frame that the peer's receive reads back as the same batch. |
| Registry.New | network/src/network_entity.rs:21-26 | A new registry is empty, has its counter at 0 and satisfies the invariant. |
| Registry.Get | network/src/network_entity.rs:28-30 | Returns a handle exactly for registered ids, and that handle is the registered one. |
| Registry.Generate | network/src/network_entity.rs:32-36 | Returns the counter and increments it. Under the invariant the id is unregistered and the invariant is kept. |
| Registry.Insert | network/src/network_entity.rs:38-54 | An absent id succeeds: it is recorded and the counter moves strictly past it. A present id fails with `DuplicateNetworkEntity` and changes nothing. The counter never decreases, and the invariant is kept. |
| Registry.InsertThenGet | network/src/network_entity.rs:28-54 | After a successful insert, `get` returns the new handle for that id and is unchanged for every other id. |
| Registry.GenerateMany | network/src/network_entity.rs:32-36 | `n` generations return `n` ids and register nothing. |
| Registry.GenerateManyFresh | network/src/network_entity.rs:32-48 | Successive ids are the counter, the counter plus one, and so on. They are strictly increasing and none is registered. The counter ends past them all with the invariant kept. |
| Spawning.NewSpawnManager | network/src/spawnable.rs:12-17 | A new manager holds no objects and tracks no connections. |
| Spawning.RegisterSpawn | network/src/spawnable.rs:19-26 | Records, or replaces, one object's target and payload. Every other object and all tracking are unchanged. |
| Spawning.ConfirmSpawn | network/src/spawnable.rs:28-33 | Adds the object to one connection's delivered set, creating the set if absent. Every other connection is unchanged. |
| Spawning.Missing | network/src/spawnable.rs:42-46 | Each reported entry is an object of the enumeration, outside the given set, with its registered target and payload. |
| Spawning.MissingComplete | network/src/spawnable.rs:42-46 | Every object of the enumeration outside the given set is reported. |
| Spawning.MissingDistinct | network/src/spawnable.rs:42-46 | No object is reported twice. |
| Spawning.GetNotSpawned | network/src/spawnable.rs:35-50 | An untracked connection gets nothing. For a tracked connection it reports exactly the registered objects the connection does not hold, once each, with their target and payload. |
| Spawning.TrackConnections | network/src/spawnable.rs:142-148 | Every live connection gets a tracking entry. Existing entries are kept as they are. |
| Spawning.AudienceLive | network/src/spawnable.rs:156-158 | When every index entry names a live connection (`IndexLive`), every object's audience consists of live connections (`AudiencesLive`), so neither `unwrap` panics, whatever the objects and targets. |
| Spawning.DetectFor | network/src/spawnable.rs:156-168 | One object's pass marks the object delivered on exactly the connections of its audience that lacked it. It logs those connections once each. |
| Spawning.DetectAll | network/src/spawnable.rs:155-170 | The pass over all objects marks and logs, for each object, exactly its undelivered audience members. |
| Spawning.DetectedSpec | network/src/spawnable.rs:142-170 | After detection every live connection is tracked. Each connection holds what it held plus exactly its audience's objects. The log names exactly the uncovered (object, connection) pairs. |
| Spawning.SpawnDetectionSystem | network/src/spawnable.rs:136-171 | Objects are unchanged, and the tracked connections become the old ones plus every live connection. The only precondition is `AudiencesLive`, the condition under which lines 157-158 do not panic. |
| Spawning.SpawnSends | network/src/spawnable.rs:167 | One payload per logged pair, addressed to `ActorId` of that connection's actor and carrying the object's spawn payload. |
| Spawning.DetectionSpec | network/src/spawnable.rs:136-171 | Detection covers every audience. It logs each uncovered pair exactly once, and it queues, after the existing queue, one spawn per logged pair addressed to that connection's actor. |
| Spawning.DetectionNoop | network/src/spawnable.rs:155-170 | A manager that tracks every live connection and covers every audience is left alone: nothing is queued and nothing changes. |
| Spawning.DetectionIdempotent | network/src/spawnable.rs:155-170 | Detection converges in one pass. Run again on its own result, it queues nothing and changes nothing. |
| Spawning.SpawnIds | network/src/spawnable.rs:110-115 | An id is listed exactly when some message of the tick is a `Spawn` of it, and there are no more ids than messages. |
| Spawning.SpawnSystem | network/src/spawnable.rs:101-134 | Succeeds exactly when the spawned ids are distinct and unregistered, and otherwise fails with `DuplicateNetworkEntity`. On success, each `Spawn` message's id maps to the object the callback built from a context with the receiver as local and the sender as sender. Earlier registrations are kept, nothing else is added, and the invariant is preserved. |
| Handles.NewHandle | network/src/message.rs:39-44 | A new handle has both queues empty. |
| Handles.RequestSpawn | network/src/message.rs:46-50 | Appends exactly one (target, data) request. The payload queue is unchanged. |
| Handles.AddPayload | network/src/message.rs:93-95 | Appends exactly one entry at the end of the queue. Spawn requests are unchanged. |
| Handles.SyncComponent | network/src/message.rs:52-67 | Appends exactly one `ComponentUpdate` carrying the given target, entity, uuid and bytes. |
| Handles.ClearPayloads | network/src/message.rs:97-99 | Returns the queue in order and leaves it empty. Spawn requests are untouched. |
| Handles.AddsThenClear | network/src/message.rs:93-99 | Whatever was added since the last clear comes back from the next clear, oldest first, after what was already queued. |
| Handles.ConfirmEach | network/src/message.rs:84-86 | Confirming along a list of connections adds the object on exactly those connections. |
| Handles.ConfirmAll | network/src/message.rs:84-86 | Confirming a set of connections tracks the object on exactly that set. |
| Handles.ConfirmOrderIrrelevant | network/src/message.rs:84-86 | Any iteration order of the targeted set gives the same manager. |
| Handles.ConvertOne | network/src/message.rs:76-89 | One request takes the next id, is registered with its target and `Spawn` payload, and yields the entry queued to its original target. |
| Handles.ConvertOneConfirms | network/src/message.rs:84-86 | A converted request is confirmed on exactly the connections its target resolves to. |
| Handles.ConvertLoop | network/src/message.rs:75-90 | The loop queues one entry per request and advances the counter by the number of requests. |
| Handles.Spawned | network/src/message.rs:75-89 | The queued entries are one per request, in order, with consecutive ids from the counter. |
| Handles.NewSpawnables | network/src/message.rs:75-83 | The objects registered are exactly the consecutive new ids, each with its request's target and payload. |
| Handles.ConvertQueued | network/src/message.rs:75-89 | The conversion loop queues exactly `Spawned`. |
| Handles.ConvertRegistered | network/src/message.rs:75-83 | The conversion loop registers exactly `NewSpawnables` on top of the existing objects. |
| Handles.ConvertConfirmed | network/src/message.rs:75-89 | The conversion loop confirms each new object on exactly the connections its target resolves to, and nothing else. |
| Handles.ConvertSpawnMessages | network/src/message.rs:69-91 | Spawn requests are emptied. One `Spawn` entry per request is appended, with distinct fresh ids that were unregistered under the invariant. The counter advances by the number of requests, and each object is registered with its target and payload. |
| Handles.ConvertConfirms | network/src/message.rs:69-91 | Conversion confirms each new object on exactly the connections its target resolves to now. |
| ComponentSyncing.NewSync | network/src/component_sync.rs:11-17 | A new sync state is dirty, with the given ownership. |
| ComponentSyncing.IdSync | network/src/component_sync.rs:19-21 | Dirty, and the ownership admits exactly the actor with that id. |
| ComponentSyncing.TySync | network/src/component_sync.rs:23-25 | Dirty, and the ownership admits exactly the actors of that role. |
| ComponentSyncing.AllSync | network/src/component_sync.rs:27-29 | Dirty, and the ownership admits every actor. |
| ComponentSyncing.MarkSync | network/src/component_sync.rs:31-33 | Sets the dirty flag and keeps the ownership. |
| ComponentSyncing.ApplyUpdate | network/src/component_sync.rs:43-72 | No object appears or disappears, and sync state and network ids are unchanged. An object's value is replaced by the decoded bytes exactly when the message is an update of this type for a registered id mapped to that object, from a sender its ownership admits. Otherwise the value is kept. |
| ComponentSyncing.NonOwnerIgnored | network/src/component_sync.rs:61-68 | An update from a sender the target's ownership does not admit leaves every object exactly as it was. |
| ComponentSyncing.ReceivingSystem | network/src/component_sync.rs:36-74 | Each object ends with the decoded value of the last applicable update, or keeps its value when none applies. Sync state and network ids never change. |
| ComponentSyncing.ConnectSystem | network/src/component_sync.rs:76-88 | An object ends dirty exactly when it was dirty or the tick has a `Connected` event. Values, ownership and network ids are unchanged. |
| ComponentSyncing.MarkingSystem | network/src/component_sync.rs:90-96 | An object ends dirty exactly when it was dirty or changed this tick. Everything else is unchanged. |
| ComponentSyncing.UpdateEntries | network/src/component_sync.rs:119-126 | One `ComponentUpdate` per audience, in audience order, all with the same id, uuid and bytes. |
| ComponentSyncing.SyncToTargets | network/src/component_sync.rs:119-126 | The inner loop appends exactly those entries and leaves spawn requests alone. |
| ComponentSyncing.SendObject | network/src/component_sync.rs:105-129 | Clears the object's flag and changes nothing else about it. It appends exactly that object's updates to the queue and leaves spawn requests alone. |
| ComponentSyncing.SendingSystem | network/src/component_sync.rs:98-131 | Every flag is cleared whether or not anything is sent, and values and ownership are untouched. The updates of every dirty object owned by the local actor are appended in query order. Spawn requests are untouched. |
| ComponentSyncing.QueuedMembers | network/src/component_sync.rs:105-126 | An entry is queued exactly when some object was dirty and owned by the local actor, the target is a configured audience, and the payload carries that object's id, this uuid and its encoded value. |
| ComponentSyncing.ClearedSendsNothing | network/src/component_sync.rs:106-110 | Once every flag is cleared, the next pass queues nothing. |
| ComponentSyncing.MarkThenSend | network/src/component_sync.rs:90-126 | After marking, every changed object owned by the local actor is sent to every configured audience with its current value. |
| ComponentSyncing.ConnectThenSend | network/src/component_sync.rs:76-126 | After a tick with a `Connected` event, every object owned by the local actor is sent to every configured audience. |
| Listening.ServerHandshake | network/src/listener.rs:26-29 | Offers `Override`. Its receiver id is the freshly generated actor id, unused when ids are below the generator, and its sender id is the local actor's id. |
| Listening.ListeningSystem | network/src/listener.rs:17-43 | Exactly one `Connected` event per stream accepted before the first would-block, with consecutive fresh connection ids and the configured connection role. Failed accepts are skipped and existing connections are kept. |
| Listening.ListeningKeepsValid | network/src/listener.rs:17-43 | With peers that answer `None`, the accept loop keeps the manager valid and keeps the local id. Accepted peers get consecutive fresh actor ids. |
| Listening.ClientConnect | network/src/plugin.rs:98-108 | A client connects on connection 1 offering `None`. A server `Override` makes the client adopt the assigned id and know the server by its sender id. |
| Listening.HandshakeAgreement | network/src/connection_manager.rs:421-435 | A server accepting a freshly started client and that client agree on both ids, and both managers stay valid. |
| Settings.ServerSettings | network/src/settings.rs:14-20 | The server role is `Server`, its connections are typed `Client`, and it syncs with `ActorTy(Client)`. |
| Settings.ClientSettings | network/src/settings.rs:22-28 | The client role is `Client`, its connections are typed `Server`, and it syncs with `ActorTy(Server)`. |
| Settings.RolesMirror | network/src/settings.rs:13-29 | The roles are mirror images and distinct. Each syncs with exactly the other's actors. |
| Communication.ReceivingSystem | network/src/communication.rs:4-13 | Publishes after what was already published. Every connection's socket state is the one its drain leaves, and the table keys and the local id are kept. The receive path is the corrected one. |
| Communication.ReceivingPublishes | network/src/communication.rs:9-12 | Every new message is addressed to the local actor and carries a payload drained from its sender's connection. Every payload drained from any connection is published, stamped with that connection's actor. The new events are exactly the failed drains, each a `Disconnected` with its cause. Every loopback payload is published, and no new event disconnects the local actor. |
| Communication.OutgoingContents | network/src/communication.rs:22-28 | What is sent is the queued payloads followed by one `Spawn` per spawn request, in order. |
| Communication.SendingSystem | network/src/communication.rs:15-32 | The handle ends with both queues empty. The registry counter advances by the number of spawn requests, and the new objects are registered for tracking. The manager is the one `Connections.Send` leaves after sending the outgoing payloads, and the events it returns are published after the existing ones. |
| Communication.SendingDelivers | network/src/communication.rs:28-29 | Each connection the outgoing payloads target gets exactly its batch: appended to the loopback queue, or framed onto the stream's outbox when the write succeeds. Every other connection is unchanged. |
| Communication.SendingReports | network/src/communication.rs:28-31 | The published events are exactly one `Disconnected` per targeted connection whose write failed. No two of them name the same connection. |
| Communication.SpawnRecorded | network/src/communication.rs:22-26 | A new object is recorded as held by exactly the connections its request targets, besides what was recorded before. |
| Communication.SpawnBatched | network/src/communication.rs:22-29 | A new object's `Spawn` is in the batch sent to every connection its request targets, in the same tick. |
| Communication.SpawnLooped | network/src/communication.rs:22-29 | A spawn targeting the loopback is in the loopback's queue once the tick's payloads are sent. |
| Communication.ConvertedNotRedetected | network/src/communication.rs:22-29 | A spawn sent by the sending system is never sent again by spawn detection to the connections it targeted. |

## Left out

- Socket I/O is abstract. `read`, `peek`, `write`, `set_nonblocking`, `set_nodelay`, `peer_addr` and `incoming()` are replaced by byte buffers, write-result parameters and per-step socket faults.
  - Each connection's fault is given per step of a receive call (`SocketFault`): the prefix read, the peek or the body read may fail at that step.
  - A read that returns fewer bytes than asked for is not modelled. A read succeeds whole, or fails, or would block.
- The 8-byte prefix read (connection_manager.rs:113) ignores the byte count. The model treats it as all-or-would-block: fewer than 8 bytes are left unread. Partial writes and end-of-stream are not modelled.
- The handshake's blocking socket exchange in `add_connection` (connection_manager.rs:405-419) is not modelled. The peer's handshake is a parameter.
- Serialisation is not modelled. `serde_cbor`, the typetag `Spawnable` decoding and the reflect encoders are function parameters.
  - Framing relies only on `ValidCodec`.
  - The panics of `unwrap` on encoding in `spawn` and `add_connection` are not modelled.
  - A spawn payload that fails to decode in `spawn_system` is not modelled.
- The `len > 10000` warning only logs and is not modelled.
- The u64 counters (`next_connection_id`, `next_actor_id`, `NetworkEntityRegistry` ids) are unbounded. Their wrap-around is not modelled.
- `HashMap` and `HashSet` iteration order is not modelled. Every such loop takes an `order` parameter that enumerates the keys, so no cross-connection order is promised.
  - Connections.TargetedConnectionIds and Connections.TargetedActorIds return sets rather than vectors for the same reason.
- Connections.Send: the per-connection effects are stated through `SendDelivers` and `SendReports`. No relation between the events' order and `order` is promised.
- Connections.Receive: the order of messages across connections follows `order`. Only membership is stated, through `ReceiveCollects`, not the interleaving.
- Framing.ReceiveLoop: runs the corrected step `Framing.ReceiveStep`, not the source's `Framing.ReceiveStepAsWritten` (see Findings). The two differ only when a frame's prefix is readable and none of its body is: the source then loses the length, while the model stores `Some(len)` and stays in step with the stream.
- Framing.ConnectionReceive: is `Framing.ReceiveLoop`, so it runs the corrected step too.
- Connections.Drain: runs `Framing.ConnectionReceive`, so it runs the corrected step too.
- Connections.Collect: drains through `Connections.Drain`, so it runs the corrected step too.
- Connections.Receive: drains through `Connections.Drain`, so it runs the corrected step too.
- Communication.ReceivingSystem: calls `Connections.Receive`, so it runs the corrected step too.
- Handles.ConvertSpawnMessages: the model appends the converted entries after the loop. The source appends each inside the loop. No step in between reads the queue, so the resulting queue is the same.
- ComponentSyncing.ConnectSystem: the world is the set of objects carrying the attribute, a `ComponentSync` and a network id.
  - The source's connect system also marks a `ComponentSync` on an object without the attribute or the id. Such objects are outside this world.
  - `Changed<T>` detection is a parameter of the marking system, `changed`.
- The bevy ECS machinery is not modelled: stages, the fixed timestep, `Events` and `EventReader`, `Commands`, `Query`, `TypeRegistry` and the plugin wiring in plugin.rs. Published events are modelled as the sequences the systems append to, and error logs are not modelled.
- Listening.ServerHandshake: the `unwrap` of `get_local_actor()` (listener.rs:28) panics when the local actor id is not indexed. The model makes `LocalIndexed` a precondition instead of modelling the panic.
- Connections.Receive: the `expect` on the local actor (connection_manager.rs:304-306) panics when the local actor id is not indexed. The model makes `LocalIndexed` a precondition instead of modelling the panic.
- Connections.SetLocalActorId: the two `expect`s (connection_manager.rs:385-392) panic when the local actor id is not indexed. The model makes `LocalIndexed` a precondition instead of modelling the panic.
- Connections.AddConnection: a received `Override` goes through `set_local_actor_id`, so its panic is the same precondition, `received.Override? ==> LocalIndexed(cm)`.
- Spawning.SpawnDetectionSystem: the `unwrap`s of `get_actor` and of the tracked set (spawnable.rs:157-158) panic when an object's target resolves to a connection that is not live. The model makes the absence of that case, `AudiencesLive`, a precondition instead of modelling the panic. `DetectedSpec`, `DetectionSpec`, `DetectionNoop` and `DetectionIdempotent` require the same and nothing more. `Spawning.AudienceLive` derives it from `IndexLive`, which `Connections.AddConnection` preserves.
- A peer can reach these panics, because nothing checks a handshake for collisions. A received `Override` whose two ids are equal makes the new peer share the local actor id and take over its index entry (`HandshakeFresh` fails). Once that peer disconnects, `Connections.HandleDisconnects` removes the entry, the local actor id is no longer indexed, and the source's next `receive` panics. `Connections.CollidingOverrideUnindexesLocal` proves that the model reaches this state. The model promises nothing past that point, because the precondition no longer holds. Spawn detection does not panic in the colliding state: every index entry is still live, but the index is no longer consistent. A spawn the detection system addresses to the local actor by id then reaches the peer, which gets the object twice, and the local world never gets it (`Connections.CollidingOverrideMisaddressesLoopback`). The model reproduces this.
- Spawning.SpawnSystem: the source panics on a duplicate id. The model returns `Err(DuplicateNetworkEntity)` instead.
- `SpawnContext` accessors (spawnable.rs:63-82) and `ActorTy::new` / `is` are trivial and are not modelled.
- The abandoned first design in src/network/ and the game code in src/ are not part of this model.
- lib.rs, network_type_uuid.rs and syncable_component.rs are not part of this model. Only their role constants and the trait's encode/decode shape are used.

## Findings

| source | as written | input that shows it | evidently intended | confidence | as-written member | corrected member |
|---|---|---|---|---|---|---|
| network/src/connection_manager.rs:122-126 | `stream.peek(&mut buf)?` on a non-blocking socket with no body byte yet available returns `Err(WouldBlock)`, and the `?` returns before `*next_len = Some(len)`. The 8 length bytes already read are lost. | A frame whose 8-byte prefix arrives in one segment and whose body arrives later: the next receive parses the body's first 8 bytes as a length. | Store `next_len = Some(len)` whenever the body is incomplete, including when none of it has arrived. The receiver then stays in step with the stream. | not executed | Framing.ReceiveStepAsWritten, Framing.AsWrittenLosesPendingLength | Framing.ReceiveStep, Framing.FramingRoundTrip |
