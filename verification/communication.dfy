/** The two per-tick transport systems (communication.rs): `receiving_system` publishes
    what the connection manager drains, and `sending_system` turns queued spawn requests
    into payloads, empties the handle and hands everything to the connection manager.
    Published events are modelled as the sequences the systems append to. */
module Communication {
  import opened Addressing
  import opened Messages
  import opened Framing
  import opened Registry
  import opened Connections
  import opened Spawning
  import opened Handles

  /** `receiving_system`: drain every connection and publish the messages and connection
      events, after those already published this tick, in the order `receive` returns them. */
  function ReceivingSystem(cm: ConnectionManager, order: seq<ConnectionId>, codec: Codec, faults: ConnectionId -> seq<SocketFault>,
                           messageEvents: seq<Message>, connectionEvents: seq<ConnectionEvent>):
    (r: (ConnectionManager, seq<Message>, seq<ConnectionEvent>))
    requires LocalIndexed(cm)
    requires Enumerates(order, cm.connections.Keys)
    ensures r.0.connections.Keys == cm.connections.Keys && r.0.localActorId == cm.localActorId
    ensures forall c :: c in cm.connections ==>
      r.0.connections[c] == cm.connections[c].(inner := Drain(cm, c, codec, faults).0)
    ensures |r.1| >= |messageEvents| && r.1[..|messageEvents|] == messageEvents
    ensures |r.2| >= |connectionEvents| && r.2[..|connectionEvents|] == connectionEvents
  {
    var (cm', messages, events) := Receive(cm, order, codec, faults);
    (cm', messageEvents + messages, connectionEvents + events)
  }

  /** What the receiving system publishes: every new message is addressed to the local
      actor and carries a payload drained from the connection of its sender; every
      payload drained from any connection is published, stamped with that connection's
      actor; the new events are exactly the failed drains; everything the local actor
      sent itself through the loopback connection is published; no new event
      disconnects the local actor. */
  lemma ReceivingPublishes(cm: ConnectionManager, order: seq<ConnectionId>, codec: Codec, faults: ConnectionId -> seq<SocketFault>,
                           messageEvents: seq<Message>, connectionEvents: seq<ConnectionEvent>)
    requires Valid(cm)
    requires Enumerates(order, cm.connections.Keys)
    ensures var r := ReceivingSystem(cm, order, codec, faults, messageEvents, connectionEvents);
      && (forall i :: |messageEvents| <= i < |r.1| ==>
            && Some(r.1[i].receiver) == LocalActor(cm)
            && exists c :: c in cm.connections && r.1[i].sender == cm.connections[c].actor
                 && Drain(cm, c, codec, faults).1.Ok? && r.1[i].payload in Drain(cm, c, codec, faults).1.value)
      && (forall c, p :: c in cm.connections && Drain(cm, c, codec, faults).1.Ok? && p in Drain(cm, c, codec, faults).1.value ==>
            Message(p, cm.connections[c].actor, LocalActor(cm).value) in r.1[|messageEvents|..])
      && (forall e :: e in r.2[|connectionEvents|..] <==>
            exists c :: c in cm.connections && Drain(cm, c, codec, faults).1.Err?
              && e == Disconnected(cm.connections[c].actor, c, Drain(cm, c, codec, faults).1.error))
      && (forall p :: p in cm.connections[LOOPBACK].inner.payloads ==>
            Message(p, cm.connections[LOOPBACK].actor, cm.connections[LOOPBACK].actor) in r.1[|messageEvents|..])
      && (forall i :: |connectionEvents| <= i < |r.2| ==> r.2[i].actor.id != cm.localActorId)
  {
    var r := ReceivingSystem(cm, order, codec, faults, messageEvents, connectionEvents);
    var received := Receive(cm, order, codec, faults);
    ReceiveCollects(cm, order, codec, faults);
    ReceiveNeverDisconnectsLocal(cm, order, codec, faults);
    LoopbackDelivers(cm, order, codec, faults);
    assert r.1[|messageEvents|..] == received.1;
    assert r.2[|connectionEvents|..] == received.2;
    forall i | |messageEvents| <= i < |r.1|
      ensures Some(r.1[i].receiver) == LocalActor(cm)
      ensures exists c :: c in cm.connections && r.1[i].sender == cm.connections[c].actor
                            && Drain(cm, c, codec, faults).1.Ok? && r.1[i].payload in Drain(cm, c, codec, faults).1.value
    {
      assert r.1[i] == received.1[i - |messageEvents|];
    }
    forall i | |connectionEvents| <= i < |r.2| ensures r.2[i].actor.id != cm.localActorId {
      assert r.2[i] == received.2[i - |connectionEvents|];
    }
  }

  /** The payloads the sending system hands to `send`: the handle's queue after spawn
      requests have been converted. */
  function Outgoing(h: NetworkHandle, reg: NetworkEntityRegistry, sm: SpawnManager, cm: ConnectionManager):
    seq<(NetworkTarget, Payload)>
  {
    ClearPayloads(ConvertSpawnMessages(h, reg, sm, cm).0).1
  }

  /** The outgoing queue is the handle's payloads followed by one `Spawn` per request, in
      request order, numbered from the registry's counter. */
  lemma OutgoingContents(h: NetworkHandle, reg: NetworkEntityRegistry, sm: SpawnManager, cm: ConnectionManager)
    ensures Outgoing(h, reg, sm, cm) == h.payloads + Spawned(h.spawnMessages, reg.next)
  {
  }

  /** State the sending system threads through one tick. */
  datatype SendState = SendState(
    handle: NetworkHandle,
    registry: NetworkEntityRegistry,
    spawnManager: SpawnManager,
    connections: ConnectionManager,
    connectionEvents: seq<ConnectionEvent>)

  /** `sending_system`: convert spawn requests (registering and tracking the new objects),
      take every queued payload, send them, and publish the resulting disconnections. */
  function SendingSystem(s: SendState, order: seq<ConnectionId>, codec: Codec,
                         io: ConnectionId -> (WriteResult, WriteResult)): (r: SendState)
    requires ValidCodec(codec)
    requires Enumerates(order, Group(s.connections, Outgoing(s.handle, s.registry, s.spawnManager, s.connections)).Keys)
    ensures r.handle == NewHandle()
    ensures r.registry.entities == s.registry.entities
    ensures r.registry.next == s.registry.next + |s.handle.spawnMessages|
    ensures r.spawnManager.spawnables == s.spawnManager.spawnables + NewSpawnables(s.handle.spawnMessages, s.registry.next)
    ensures r.connections.connections.Keys == s.connections.connections.Keys
    ensures r.connections == Send(s.connections, Outgoing(s.handle, s.registry, s.spawnManager, s.connections), order, codec, io).0
    ensures |r.connectionEvents| >= |s.connectionEvents| && r.connectionEvents[..|s.connectionEvents|] == s.connectionEvents
    ensures r.connectionEvents[|s.connectionEvents|..]
         == Send(s.connections, Outgoing(s.handle, s.registry, s.spawnManager, s.connections), order, codec, io).1
    ensures Inv(s.registry) ==> Inv(r.registry)
  {
    var (h1, reg1, sm1) := ConvertSpawnMessages(s.handle, s.registry, s.spawnManager, s.connections);
    var (h2, payloads) := ClearPayloads(h1);
    var (cm1, events) := Send(s.connections, payloads, order, codec, io);
    SendState(h2, reg1, sm1, cm1, s.connectionEvents + events)
  }

  /** What the sending system puts on the wire: every connection the outgoing payloads
      target gets exactly its batch, queued on the loopback or framed onto the stream
      when the write succeeds, and every other connection is left as it was. */
  lemma SendingDelivers(s: SendState, order: seq<ConnectionId>, codec: Codec,
                        io: ConnectionId -> (WriteResult, WriteResult))
    requires ValidCodec(codec)
    requires Enumerates(order, Group(s.connections, Outgoing(s.handle, s.registry, s.spawnManager, s.connections)).Keys)
    ensures var cm := s.connections; var out := Outgoing(s.handle, s.registry, s.spawnManager, s.connections);
      var after := SendingSystem(s, order, codec, io).connections;
      && (forall c :: c in cm.connections && c !in Destinations(cm, out) ==> after.connections[c] == cm.connections[c])
      && (forall c :: c in cm.connections && cm.connections[c].inner.Internal? ==>
            after.connections[c].inner == Internal(cm.connections[c].inner.payloads + BatchFor(cm, out, c)))
      && (forall c :: c in cm.connections && cm.connections[c].inner.External? && c in Destinations(cm, out)
                      && io(c) == (Written, Written) ==>
            && after.connections[c].inner.External?
            && after.connections[c].inner.outbox == cm.connections[c].inner.outbox + Frame(codec.encode(BatchFor(cm, out, c))))
  {
    SendDelivers(s.connections, Outgoing(s.handle, s.registry, s.spawnManager, s.connections), order, codec, io);
  }

  /** What the sending system publishes: after the events already published, one
      `Disconnected` for each connection whose write failed, and nothing else. */
  lemma SendingReports(s: SendState, order: seq<ConnectionId>, codec: Codec,
                       io: ConnectionId -> (WriteResult, WriteResult))
    requires ValidCodec(codec)
    requires Enumerates(order, Group(s.connections, Outgoing(s.handle, s.registry, s.spawnManager, s.connections)).Keys)
    ensures var cm := s.connections; var out := Outgoing(s.handle, s.registry, s.spawnManager, s.connections);
      var published := SendingSystem(s, order, codec, io).connectionEvents[|s.connectionEvents|..];
      && (forall e :: e in published ==>
            && e.Disconnected? && e.connectionId in cm.connections && e.connectionId in Destinations(cm, out)
            && e.actor == cm.connections[e.connectionId].actor && e.cause == Io(OtherIo))
      && (forall c :: c in cm.connections && c in Destinations(cm, out) && SendOn(cm, c, BatchFor(cm, out, c), codec, io).1.Err? ==>
            Disconnected(cm.connections[c].actor, c, Io(OtherIo)) in published)
      && (forall i, j :: 0 <= i < j < |published| ==> published[i].connectionId != published[j].connectionId)
  {
    SendReports(s.connections, Outgoing(s.handle, s.registry, s.spawnManager, s.connections), order, codec, io);
  }

  /** Spawns are recorded in the tick they were requested: the `i`-th request becomes
      object `next + i`, recorded as held by exactly the connections its target resolves
      to, besides what was recorded before. */
  lemma SpawnRecorded(s: SendState, order: seq<ConnectionId>, codec: Codec,
                      io: ConnectionId -> (WriteResult, WriteResult), i: nat, c: ConnectionId)
    requires ValidCodec(codec)
    requires Enumerates(order, Group(s.connections, Outgoing(s.handle, s.registry, s.spawnManager, s.connections)).Keys)
    requires i < |s.handle.spawnMessages|
    ensures s.registry.next + i in Tracked(SendingSystem(s, order, codec, io).spawnManager, c) <==>
      s.registry.next + i in Tracked(s.spawnManager, c) || c in TargetedConnectionIds(s.connections, s.handle.spawnMessages[i].0)
  {
    ConvertRecorded(s.handle, s.registry, s.spawnManager, s.connections, i, c);
  }

  /** Converting the requests records the `i`-th as object `next + i`, held by exactly
      the connections its target resolves to, besides what was recorded before. */
  lemma ConvertRecorded(h: NetworkHandle, reg: NetworkEntityRegistry, sm: SpawnManager, cm: ConnectionManager,
                        i: nat, c: ConnectionId)
    requires i < |h.spawnMessages|
    ensures reg.next + i in Tracked(ConvertSpawnMessages(h, reg, sm, cm).2, c) <==>
      reg.next + i in Tracked(sm, c) || c in TargetedConnectionIds(cm, h.spawnMessages[i].0)
  {
    NewSpawnableAt(h.spawnMessages, reg.next, i);
    ConvertConfirms(h, reg, sm, cm);
    ConfirmedAt(cm, ConvertSpawnMessages(h, reg, sm, cm).2, sm, NewSpawnables(h.spawnMessages, reg.next), c, reg.next + i);
  }

  /** The `i`-th request becomes new object `base + i`, with the request's target. */
  lemma NewSpawnableAt(pending: seq<(NetworkTarget, Bytes)>, base: NetworkEntity, i: nat)
    requires i < |pending|
    ensures base + i in NewSpawnables(pending, base)
    ensures NewSpawnables(pending, base)[base + i].0 == pending[i].0
  {
    var news := NewSpawnables(pending, base);
    assert news[base + i] == (pending[i].0, Spawn(base + i, pending[i].1));
  }

  /** The record agrees with the wire: the `i`-th request's `Spawn` payload is in the
      batch sent to every connection its target resolves to. */
  lemma SpawnBatched(h: NetworkHandle, reg: NetworkEntityRegistry, sm: SpawnManager, cm: ConnectionManager,
                     i: nat, c: ConnectionId)
    requires i < |h.spawnMessages| && c in TargetedConnectionIds(cm, h.spawnMessages[i].0)
    ensures Spawn(reg.next + i, h.spawnMessages[i].1) in BatchFor(cm, Outgoing(h, reg, sm, cm), c)
  {
    OutgoingContents(h, reg, sm, cm);
    SpawnInBatch(cm, h.payloads, h.spawnMessages, reg.next, i, c);
  }

  /** A converted request's entry is batched for every connection its target resolves to,
      whatever was queued before it. */
  lemma SpawnInBatch(cm: ConnectionManager, queued: seq<(NetworkTarget, Payload)>, pending: seq<(NetworkTarget, Bytes)>,
                     base: NetworkEntity, i: nat, c: ConnectionId)
    requires i < |pending| && c in TargetedConnectionIds(cm, pending[i].0)
    ensures Spawn(base + i, pending[i].1) in BatchFor(cm, queued + Spawned(pending, base), c)
  {
    var all := queued + Spawned(pending, base);
    assert all[|queued| + i] == (pending[i].0, Spawn(base + i, pending[i].1));
    BatchForMembers(cm, all, c, Spawn(base + i, pending[i].1));
  }

  /** A spawn targeting an in-process connection (the local actor's loopback) is in that
      connection's queue once the tick's payloads are sent. */
  lemma SpawnLooped(h: NetworkHandle, reg: NetworkEntityRegistry, sm: SpawnManager, cm: ConnectionManager,
                    order: seq<ConnectionId>, codec: Codec, io: ConnectionId -> (WriteResult, WriteResult), i: nat, c: ConnectionId)
    requires ValidCodec(codec)
    requires Enumerates(order, Group(cm, Outgoing(h, reg, sm, cm)).Keys)
    requires i < |h.spawnMessages| && c in TargetedConnectionIds(cm, h.spawnMessages[i].0)
    requires c in cm.connections && cm.connections[c].inner.Internal?
    ensures Send(cm, Outgoing(h, reg, sm, cm), order, codec, io).0.connections[c].inner.Internal?
    ensures Spawn(reg.next + i, h.spawnMessages[i].1)
            in Send(cm, Outgoing(h, reg, sm, cm), order, codec, io).0.connections[c].inner.payloads
  {
    SpawnBatched(h, reg, sm, cm, i, c);
    InternalGetsBatch(cm, Outgoing(h, reg, sm, cm), order, codec, io, c, Spawn(reg.next + i, h.spawnMessages[i].1));
  }

  /** An in-process connection receives every payload of its batch. */
  lemma InternalGetsBatch(cm: ConnectionManager, targeted: seq<(NetworkTarget, Payload)>, order: seq<ConnectionId>,
                          codec: Codec, io: ConnectionId -> (WriteResult, WriteResult), c: ConnectionId, p: Payload)
    requires ValidCodec(codec)
    requires Enumerates(order, Group(cm, targeted).Keys)
    requires c in cm.connections && cm.connections[c].inner.Internal?
    requires p in BatchFor(cm, targeted, c)
    ensures Send(cm, targeted, order, codec, io).0.connections[c].inner.Internal?
    ensures p in Send(cm, targeted, order, codec, io).0.connections[c].inner.payloads
  {
    SendDelivers(cm, targeted, order, codec, io);
  }

  /** A spawn sent by the sending system is not sent again: spawn detection on the
      resulting manager logs no pair of a new object and a connection its request
      targeted. */
  lemma ConvertedNotRedetected(s: SendState, order: seq<ConnectionId>, codec: Codec,
                               io: ConnectionId -> (WriteResult, WriteResult), i: nat, c: ConnectionId,
                               queue: seq<(NetworkTarget, Payload)>, spawnOrder: seq<NetworkEntity>, conns: seq<ConnectionId>)
    requires ValidCodec(codec)
    requires Enumerates(order, Group(s.connections, Outgoing(s.handle, s.registry, s.spawnManager, s.connections)).Keys)
    requires i < |s.handle.spawnMessages| && c in TargetedConnectionIds(s.connections, s.handle.spawnMessages[i].0)
    requires AudiencesLive(s.connections, SendingSystem(s, order, codec, io).spawnManager.spawnables)
    requires Enumerates(spawnOrder, SendingSystem(s, order, codec, io).spawnManager.spawnables.Keys)
    requires Enumerates(conns, s.connections.connections.Keys)
    ensures (s.registry.next + i, c) !in
      SpawnDetectionSystem(s.connections, SendingSystem(s, order, codec, io).spawnManager, queue, spawnOrder, conns).2
  {
    var sm' := SendingSystem(s, order, codec, io).spawnManager;
    SpawnRecorded(s, order, codec, io, i, c);
    DetectionSpec(s.connections, sm', queue, spawnOrder, conns);
  }
}
