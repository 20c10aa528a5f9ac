/** The accept loop (listener.rs) and the two connect-time roles: the server offers an
    `Override` handshake to every accepted stream, the client connects right after
    start-up offering `NoOverride` (plugin.rs:98-108). */
module Listening {
  import opened Addressing
  import opened Messages
  import opened Framing
  import opened Connections
  import opened Settings

  /** One result of `incoming()`; `Accepted` carries the handshake the peer answers with. */
  datatype AcceptOutcome = Accepted(reply: Handshake) | AcceptWouldBlock | AcceptFailed

  /** The handshake `listening_system` offers: a freshly generated id for the peer
      and the current local actor id for ourselves. */
  function ServerHandshake(cm: ConnectionManager): (r: (Handshake, ConnectionManager))
    requires LocalIndexed(cm)
    ensures r.0.Override? && Some(Actor(r.0.senderActorId, LocalActor(cm).value.ty)) == LocalActor(cm)
    ensures r.0.receiverActorId == cm.nextActorId && r.1 == cm.(nextActorId := cm.nextActorId + 1)
    ensures IdsBelowGenerator(cm) ==> r.0.receiverActorId !in cm.connectionIds
    ensures Valid(cm) ==> r.0.senderActorId == cm.localActorId
  {
    var (receiverId, cm1) := GenerateActorId(cm);
    var senderId := cm1.connections[cm1.connectionIds[cm1.localActorId]].actor.id;
    (Override(senderId, receiverId), cm1)
  }

  /** How many streams are accepted before the first would-block. */
  function AcceptedCount(incoming: seq<AcceptOutcome>): nat {
    if incoming == [] || incoming[0].AcceptWouldBlock? then 0
    else (if incoming[0].Accepted? then 1 else 0) + AcceptedCount(incoming[1..])
  }

  /** Every peer accepted before the first would-block answers `NoOverride`. */
  predicate RepliesNoOverride(incoming: seq<AcceptOutcome>) {
    forall i :: 0 <= i < |incoming| && incoming[i].Accepted? && (forall j :: 0 <= j < i ==> !incoming[j].AcceptWouldBlock?) ==>
      incoming[i].reply.NoOverride?
  }

  /** `listening_system`: accept until the listener would block, skipping failed
      accepts; each accepted stream gets a fresh id offer, becomes a connection typed
      `connectionTy`, and publishes exactly one `Connected` event. */
  function ListeningSystem(cm: ConnectionManager, connectionTy: ActorTy, incoming: seq<AcceptOutcome>):
    (r: (ConnectionManager, seq<ConnectionEvent>))
    requires LocalIndexed(cm)
    ensures |r.1| == AcceptedCount(incoming)
    ensures forall i :: 0 <= i < |r.1| ==>
      r.1[i].Connected? && r.1[i].connectionId == cm.nextConnectionId + i && r.1[i].actor.ty == connectionTy
    ensures r.0.nextConnectionId == cm.nextConnectionId + |r.1|
    ensures cm.connections.Keys <= r.0.connections.Keys
    ensures LocalIndexed(r.0)
    decreases |incoming|
  {
    if incoming == [] then (cm, [])
    else match incoming[0]
      case AcceptWouldBlock => (cm, [])
      case AcceptFailed => ListeningSystem(cm, connectionTy, incoming[1..])
      case Accepted(reply) =>
        var (offer, cm1) := ServerHandshake(cm);
        var (cm2, event) := AddConnection(cm1, connectionTy, offer, reply);
        var rest := ListeningSystem(cm2, connectionTy, incoming[1..]);
        (rest.0, [event] + rest.1)
  }

  /** With peers that accept the offered ids, the accept loop keeps the manager valid,
      keeps our own id, and hands the accepted peers consecutive fresh actor ids. */
  lemma {:induction false} ListeningKeepsValid(cm: ConnectionManager, connectionTy: ActorTy, incoming: seq<AcceptOutcome>)
    requires Valid(cm) && IdsBelowGenerator(cm) && RepliesNoOverride(incoming)
    ensures var r := ListeningSystem(cm, connectionTy, incoming);
      && Valid(r.0) && IdsBelowGenerator(r.0)
      && r.0.localActorId == cm.localActorId
      && forall i :: 0 <= i < |r.1| ==> r.1[i].actor.id == cm.nextActorId + i
    decreases |incoming|
  {
    if incoming != [] && !incoming[0].AcceptWouldBlock? {
      TailRepliesNoOverride(incoming);
      if incoming[0].AcceptFailed? {
        ListeningKeepsValid(cm, connectionTy, incoming[1..]);
      } else {
        var (offer, cm1) := ServerHandshake(cm);
        var reply := incoming[0].reply;
        assert reply.NoOverride?;
        var (cm2, event) := AddConnection(cm1, connectionTy, offer, reply);
        AcceptStep(cm, connectionTy, reply);
        ListeningKeepsValid(cm2, connectionTy, incoming[1..]);
        var rest := ListeningSystem(cm2, connectionTy, incoming[1..]);
        assert ListeningSystem(cm, connectionTy, incoming) == (rest.0, [event] + rest.1);
        ConsecutiveIds(event, rest.1, cm.nextActorId);
      }
    }
  }

  /** An event for id `base` followed by events for consecutive ids from `base + 1`. */
  lemma ConsecutiveIds(event: ConnectionEvent, rest: seq<ConnectionEvent>, base: nat)
    requires event.actor.id == base && forall i :: 0 <= i < |rest| ==> rest[i].actor.id == base + 1 + i
    ensures forall i :: 0 <= i < |[event] + rest| ==> ([event] + rest)[i].actor.id == base + i
  {
    forall i | 0 <= i < |[event] + rest| ensures ([event] + rest)[i].actor.id == base + i {
      if i > 0 {
        assert ([event] + rest)[i] == rest[i - 1];
      }
    }
  }

  /** One accepted stream whose peer answers `NoOverride`: the manager stays valid with
      every id below the generator, which moves past the id the peer was given. */
  lemma AcceptStep(cm: ConnectionManager, connectionTy: ActorTy, reply: Handshake)
    requires Valid(cm) && IdsBelowGenerator(cm) && reply.NoOverride?
    ensures var offered := ServerHandshake(cm);
      var added := AddConnection(offered.1, connectionTy, offered.0, reply);
      && Valid(added.0) && IdsBelowGenerator(added.0)
      && added.0.nextActorId == cm.nextActorId + 1 && added.0.localActorId == cm.localActorId
      && added.1.actor.id == cm.nextActorId
  {
    var offered := ServerHandshake(cm);
    assert Valid(offered.1) && IdsBelowGenerator(offered.1) && HandshakeFresh(offered.1, offered.0, reply);
  }

  /** Dropping an outcome that is not a would-block keeps the replies' shape. */
  lemma TailRepliesNoOverride(incoming: seq<AcceptOutcome>)
    requires incoming != [] && !incoming[0].AcceptWouldBlock? && RepliesNoOverride(incoming)
    ensures RepliesNoOverride(incoming[1..])
  {
    forall i | 0 <= i < |incoming[1..]| && incoming[1..][i].Accepted?
                 && (forall j :: 0 <= j < i ==> !incoming[1..][j].AcceptWouldBlock?)
      ensures incoming[1..][i].reply.NoOverride?
    {
      assert incoming[1..][i] == incoming[i + 1];
      forall j | 0 <= j < i + 1 ensures !incoming[j].AcceptWouldBlock? {
        if j > 0 {
          assert incoming[j] == incoming[1..][j - 1];
        }
      }
    }
  }

  /** The client side of start-up: a fresh manager of our role, then one connection to
      the server offering `NoOverride`. */
  function ClientConnect(settings: NetworkSettings, reply: Handshake): (r: (ConnectionManager, ConnectionEvent))
    ensures r.1.Connected? && r.1.connectionId == 1 && r.1.actor.ty == settings.connectionTy
    ensures reply.Override? ==>
      && r.0.localActorId == reply.receiverActorId && r.1.actor.id == reply.senderActorId
      && (reply.senderActorId != reply.receiverActorId ==>
            LocalActor(r.0) == Some(Actor(reply.receiverActorId, settings.actorTy)))
    ensures reply.NoOverride? ==> r.0.localActorId == 0 && r.1.actor.id == 1
  {
    var cm := New(settings.actorTy);
    AddConnection(cm, settings.connectionTy, NoOverride, reply)
  }

  /** Handshake agreement: when a server accepts a freshly started client, the client
      adopts exactly the id the server assigned it, the server is known to the client
      by the server's own local actor, and both managers stay valid. */
  lemma HandshakeAgreement(server: ConnectionManager)
    requires Valid(server) && IdsBelowGenerator(server)
    requires server.connections[LOOPBACK].actor.ty == ServerSettings().actorTy
    ensures
      var (offer, server1) := ServerHandshake(server);
      var (server2, serverEvent) := AddConnection(server1, ServerSettings().connectionTy, offer, NoOverride);
      var (client, clientEvent) := ClientConnect(ClientSettings(), offer);
      && Valid(server2) && IdsBelowGenerator(server2) && Valid(client)
      && LocalActor(client) == Some(serverEvent.actor)
      && LocalActor(server2) == Some(clientEvent.actor)
  {
    var (offer, server1) := ServerHandshake(server);
    assert server.connectionIds[server.localActorId] == LOOPBACK;
    assert offer.senderActorId < offer.receiverActorId;
    var started := New(ClientSettings().actorTy);
    assert HandshakeFresh(started, NoOverride, offer);
  }
}
