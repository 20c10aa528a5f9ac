/** `ConnectionManager` (connection_manager.rs:180-471): the connection table keyed by
    `ConnectionId`, the `ActorId -> ConnectionId` index, the loopback connection `0`,
    target resolution, batched send, stamped receive, removal, the id generators, the
    local re-keying and the connect-time handshake resolution. */
module Connections {
  import opened Addressing
  import opened Messages
  import opened Framing

  /** One transport and the actor at its far end. */
  datatype Connection = Connection(inner: Inner, actor: Actor)

  datatype ConnectionManager = ConnectionManager(
    connections: map<ConnectionId, Connection>,
    connectionIds: map<ActorId, ConnectionId>,
    nextConnectionId: ConnectionId,
    nextActorId: ActorId,
    localConnectionId: ConnectionId,
    localActorId: ActorId)

  /** The id of the in-process loopback connection. */
  const LOOPBACK: ConnectionId := 0

  /** The index and the table describe the same peers: every index entry names a live
      connection whose actor has that id, and every live connection is indexed under
      its actor's id. */
  predicate IndexConsistent(cm: ConnectionManager) {
    && (forall a :: a in cm.connectionIds ==>
          cm.connectionIds[a] in cm.connections && cm.connections[cm.connectionIds[a]].actor.id == a)
    && (forall c :: c in cm.connections ==>
          cm.connections[c].actor.id in cm.connectionIds && cm.connectionIds[cm.connections[c].actor.id] == c)
  }

  /** Every index entry names a live connection; what the panicking lookups of spawn
      detection need of the index. Weaker than `IndexConsistent`, which also asks that
      each actor id be indexed to its own connection. */
  predicate IndexLive(cm: ConnectionManager) {
    forall a :: a in cm.connectionIds ==> cm.connectionIds[a] in cm.connections
  }

  /** The manager's invariant: a consistent index, the loopback always present as
      connection 0 under the local actor id, every other connection a stream, and
      every allocated connection id below the generator. */
  predicate Valid(cm: ConnectionManager) {
    && IndexConsistent(cm)
    && cm.localConnectionId == LOOPBACK
    && LOOPBACK in cm.connections
    && cm.connections[LOOPBACK].inner.Internal?
    && cm.connections[LOOPBACK].actor.id == cm.localActorId
    && (forall c :: c in cm.connections && c != LOOPBACK ==> cm.connections[c].inner.External?)
    && (forall c :: c in cm.connections ==> c < cm.nextConnectionId)
  }

  /** Every indexed actor id was handed out before the generator's current value. */
  predicate IdsBelowGenerator(cm: ConnectionManager) {
    forall a :: a in cm.connectionIds ==> a < cm.nextActorId
  }

  /** What `get_local_actor` / `get_actor(local_actor_id)` need to succeed. */
  predicate LocalIndexed(cm: ConnectionManager) {
    cm.localActorId in cm.connectionIds && cm.connectionIds[cm.localActorId] in cm.connections
  }

  /** `get_local_actor`. */
  function LocalActor(cm: ConnectionManager): (r: Option<Actor>)
    ensures r.Some? <==> LocalIndexed(cm)
    ensures Valid(cm) ==> r == Some(cm.connections[LOOPBACK].actor)
  {
    if LocalIndexed(cm) then Some(cm.connections[cm.connectionIds[cm.localActorId]].actor) else None
  }

  /** `ConnectionManager::new`: only the loopback, owned by actor 0 of the given role. */
  function New(actorTy: ActorTy): (cm: ConnectionManager)
    ensures Valid(cm)
    ensures cm.connections.Keys == {LOOPBACK}
    ensures cm.connections[LOOPBACK] == Connection(Internal([]), Actor(0, actorTy))
    ensures cm.connectionIds == map[0 := LOOPBACK]
    ensures cm.nextConnectionId == 1 && cm.nextActorId == 1 && cm.localActorId == 0
  {
    ConnectionManager(
      map[LOOPBACK := Connection(Internal([]), Actor(0, actorTy))],
      map[0 := LOOPBACK],
      1, 1, LOOPBACK, 0)
  }

  /* ---------------- targeting ---------------- */

  /** `get_targeted_connection_ids`: `All` is every table key, `ActorId` goes through
      the index, `ActorTy` filters the table by role. */
  function TargetedConnectionIds(cm: ConnectionManager, t: NetworkTarget): (r: set<ConnectionId>)
    ensures t.All? ==> r == cm.connections.Keys
    ensures t.ActorId? ==> |r| <= 1 && (r == {} <==> t.id !in cm.connectionIds)
    ensures t.ActorTy? ==> r <= cm.connections.Keys
  {
    match t
    case All => cm.connections.Keys
    case ActorId(id) => if id in cm.connectionIds then {cm.connectionIds[id]} else {}
    case ActorTy(ty) => set c | c in cm.connections && cm.connections[c].actor.ty == ty
  }

  /** `get_targeted_actor_ids`: the same resolution, reporting actor ids. */
  function TargetedActorIds(cm: ConnectionManager, t: NetworkTarget): (r: set<ActorId>)
    ensures t.ActorId? ==> r <= {t.id} || !IndexConsistent(cm)
    ensures IndexConsistent(cm) ==>
      r == set c | c in TargetedConnectionIds(cm, t) && c in cm.connections :: cm.connections[c].actor.id
  {
    match t
    case All => set c | c in cm.connections :: cm.connections[c].actor.id
    case ActorId(id) =>
      if id in cm.connectionIds && cm.connectionIds[id] in cm.connections
      then {cm.connections[cm.connectionIds[id]].actor.id} else {}
    case ActorTy(ty) => set c | c in cm.connections && cm.connections[c].actor.ty == ty :: cm.connections[c].actor.id
  }

  /** Targeting correctness: with a consistent index, a target resolves to exactly the
      live connections whose actor it targets. */
  lemma TargetingCorrect(cm: ConnectionManager, t: NetworkTarget)
    requires IndexConsistent(cm)
    ensures TargetedConnectionIds(cm, t) == set c | c in cm.connections && TargetedBy(cm.connections[c].actor, t)
  {
    var r := TargetedConnectionIds(cm, t);
    var s := set c | c in cm.connections && TargetedBy(cm.connections[c].actor, t);
    forall c | c in s ensures c in r {
      if t.ActorId? {
        assert cm.connections[c].actor.id == t.id;
      }
    }
  }

  /** Actor-id resolution agrees with connection-id resolution under a consistent index. */
  lemma ActorResolutionAgrees(cm: ConnectionManager, t: NetworkTarget)
    requires IndexConsistent(cm)
    ensures TargetedConnectionIds(cm, t) <= cm.connections.Keys
    ensures TargetedActorIds(cm, t) == set c | c in TargetedConnectionIds(cm, t) :: cm.connections[c].actor.id
  {
  }

  /** Addressing a live connection by its actor's id reaches that connection alone. */
  lemma ActorIdTargetsOne(cm: ConnectionManager, c: ConnectionId)
    requires IndexConsistent(cm) && c in cm.connections
    ensures TargetedConnectionIds(cm, ActorId(cm.connections[c].actor.id)) == {c}
  {
  }

  /* ---------------- send ---------------- */

  /** The batch `send` builds for connection `c`: every payload, in input order, whose
      target resolves to `c` (the reference definition of the grouping). */
  function BatchFor(cm: ConnectionManager, targeted: seq<(NetworkTarget, Payload)>, c: ConnectionId): (r: seq<Payload>)
    ensures |r| <= |targeted|
  {
    if targeted == [] then []
    else
      var last := targeted[|targeted| - 1];
      BatchFor(cm, targeted[..|targeted| - 1], c) + (if c in TargetedConnectionIds(cm, last.0) then [last.1] else [])
  }

  /** The grouping loop of `send`: each (target, payload) is pushed onto the batch of
      every connection its target resolves to, creating the batch on first use. */
  function Group(cm: ConnectionManager, targeted: seq<(NetworkTarget, Payload)>): (r: map<ConnectionId, seq<Payload>>)
  {
    if targeted == [] then map[]
    else
      var before := Group(cm, targeted[..|targeted| - 1]);
      var last := targeted[|targeted| - 1];
      var dests := TargetedConnectionIds(cm, last.0);
      map c | c in before.Keys + dests ::
        (if c in before then before[c] else []) + (if c in dests then [last.1] else [])
  }

  /** The connections a batch resolves to. */
  function Destinations(cm: ConnectionManager, targeted: seq<(NetworkTarget, Payload)>): (r: set<ConnectionId>)
  {
    if targeted == [] then {}
    else Destinations(cm, targeted[..|targeted| - 1]) + TargetedConnectionIds(cm, targeted[|targeted| - 1].0)
  }

  /** The grouping builds one batch per destination, holding exactly the payloads
      routed to it in input order. */
  lemma {:induction false} GroupIsBatchFor(cm: ConnectionManager, targeted: seq<(NetworkTarget, Payload)>)
    ensures Group(cm, targeted).Keys == Destinations(cm, targeted)
    ensures forall c :: c in Group(cm, targeted) ==> Group(cm, targeted)[c] == BatchFor(cm, targeted, c)
    ensures forall c :: c !in Destinations(cm, targeted) ==> BatchFor(cm, targeted, c) == []
  {
    if targeted != [] {
      GroupIsBatchFor(cm, targeted[..|targeted| - 1]);
    }
  }

  /** Batches respect input order: the batch of a concatenation is the concatenation
      of the batches. */
  lemma {:induction false} BatchForAppend(cm: ConnectionManager, a: seq<(NetworkTarget, Payload)>,
                                          b: seq<(NetworkTarget, Payload)>, c: ConnectionId)
    ensures BatchFor(cm, a + b, c) == BatchFor(cm, a, c) + BatchFor(cm, b, c)
  {
    if b == [] {
      assert a + b == a;
    } else {
      assert (a + b)[..|a + b| - 1] == a + b[..|b| - 1];
      BatchForAppend(cm, a, b[..|b| - 1], c);
    }
  }

  /** A payload is in a connection's batch exactly when some entry carrying it
      targets that connection. */
  lemma {:induction false} BatchForMembers(cm: ConnectionManager, targeted: seq<(NetworkTarget, Payload)>,
                                           c: ConnectionId, p: Payload)
    ensures p in BatchFor(cm, targeted, c) <==>
      exists i :: 0 <= i < |targeted| && targeted[i].1 == p && c in TargetedConnectionIds(cm, targeted[i].0)
  {
    if targeted != [] {
      var init := targeted[..|targeted| - 1];
      BatchForMembers(cm, init, c, p);
      if p in BatchFor(cm, init, c) {
        var i :| 0 <= i < |init| && init[i].1 == p && c in TargetedConnectionIds(cm, init[i].0);
        assert targeted[i] == init[i];
      }
      if exists i :: 0 <= i < |targeted| && targeted[i].1 == p && c in TargetedConnectionIds(cm, targeted[i].0) {
        var i :| 0 <= i < |targeted| && targeted[i].1 == p && c in TargetedConnectionIds(cm, targeted[i].0);
        if i < |init| {
          assert init[i] == targeted[i];
        }
      }
    }
  }

  /** What one connection's `send` does with its batch, given the write results. */
  function SendOn(cm: ConnectionManager, c: ConnectionId, batch: seq<Payload>, codec: Codec,
                  io: ConnectionId -> (WriteResult, WriteResult)): (r: (Inner, Result<(), Error>))
    requires ValidCodec(codec) && c in cm.connections
  {
    ConnectionSend(cm.connections[c].inner, batch, codec, io(c).0, io(c).1)
  }

  /** Sending on live connection `c` failed, and `e` is the event reporting it. */
  predicate SendFailed(cm: ConnectionManager, groups: map<ConnectionId, seq<Payload>>, c: ConnectionId,
                       codec: Codec, io: ConnectionId -> (WriteResult, WriteResult), e: ConnectionEvent)
    requires ValidCodec(codec) && c in groups
  {
    && c in cm.connections && SendOn(cm, c, groups[c], codec, io).1.Err?
    && e == Disconnected(cm.connections[c].actor, c, SendOn(cm, c, groups[c], codec, io).1.error)
  }

  /** The event, if any, of the send loop's turn for connection `c`. */
  function SendEventOf(cm: ConnectionManager, groups: map<ConnectionId, seq<Payload>>, c: ConnectionId,
                       codec: Codec, io: ConnectionId -> (WriteResult, WriteResult)): (r: seq<ConnectionEvent>)
    requires ValidCodec(codec) && c in groups
    ensures |r| <= 1 && forall i :: 0 <= i < |r| ==> r[i].connectionId == c
    ensures forall e :: e in r <==> SendFailed(cm, groups, c, codec, io, e)
  {
    if c in cm.connections && SendOn(cm, c, groups[c], codec, io).1.Err?
    then [Disconnected(cm.connections[c].actor, c, SendOn(cm, c, groups[c], codec, io).1.error)]
    else []
  }

  /** The `Disconnected` events of the send loop, in its iteration order. */
  function SendEvents(cm: ConnectionManager, groups: map<ConnectionId, seq<Payload>>, order: seq<ConnectionId>,
                      codec: Codec, io: ConnectionId -> (WriteResult, WriteResult)): (r: seq<ConnectionEvent>)
    requires ValidCodec(codec)
    requires forall i :: 0 <= i < |order| ==> order[i] in groups
    ensures forall e :: e in r <==> exists c :: c in order && c in groups && SendFailed(cm, groups, c, codec, io, e)
    ensures forall i :: 0 <= i < |r| ==> r[i].connectionId in order
    ensures (forall i, j :: 0 <= i < j < |order| ==> order[i] != order[j]) ==>
      |r| <= |order| && forall i, j :: 0 <= i < j < |r| ==> r[i].connectionId != r[j].connectionId
  {
    if order == [] then []
    else
      var here := SendEventOf(cm, groups, order[0], codec, io);
      var rest := SendEvents(cm, groups, order[1..], codec, io);
      EventsMemberStep(cm, groups, order, codec, io, here, rest);
      if forall i, j :: 0 <= i < j < |order| ==> order[i] != order[j] then
        DistinctTail(order);
        EventsDistinctStep(order, here, rest);
        here + rest
      else
        here + rest
  }

  /** The events of the head connection followed by those of the tail are the events
      of the whole order, and each names a connection of the order. */
  lemma EventsMemberStep(cm: ConnectionManager, groups: map<ConnectionId, seq<Payload>>, order: seq<ConnectionId>,
                         codec: Codec, io: ConnectionId -> (WriteResult, WriteResult),
                         here: seq<ConnectionEvent>, rest: seq<ConnectionEvent>)
    requires ValidCodec(codec) && |order| > 0 && order[0] in groups
    requires forall i :: 0 <= i < |here| ==> here[i].connectionId == order[0]
    requires forall e :: e in here <==> SendFailed(cm, groups, order[0], codec, io, e)
    requires forall e :: e in rest <==> exists c :: c in order[1..] && c in groups && SendFailed(cm, groups, c, codec, io, e)
    requires forall i :: 0 <= i < |rest| ==> rest[i].connectionId in order[1..]
    ensures forall e :: e in here + rest <==> exists c :: c in order && c in groups && SendFailed(cm, groups, c, codec, io, e)
    ensures forall i :: 0 <= i < |here + rest| ==> (here + rest)[i].connectionId in order
  {
    forall e ensures e in here + rest <==> exists c :: c in order && c in groups && SendFailed(cm, groups, c, codec, io, e) {
      if e in here {
        assert order[0] in order;
      } else if e in rest {
        var c :| c in order[1..] && c in groups && SendFailed(cm, groups, c, codec, io, e);
        var k :| 0 <= k < |order[1..]| && order[1..][k] == c;
        assert order[k + 1] == c;
      }
    }
    var all := here + rest;
    forall i | 0 <= i < |all| ensures all[i].connectionId in order {
      if i < |here| {
        assert order[0] in order;
      } else {
        assert all[i] == rest[i - |here|];
        var k :| 0 <= k < |order[1..]| && order[1..][k] == all[i].connectionId;
        assert order[k + 1] == all[i].connectionId;
      }
    }
  }

  /** The tail of a repeat-free order is repeat-free and lacks the head. */
  lemma DistinctTail(order: seq<ConnectionId>)
    requires |order| > 0 && forall i, j :: 0 <= i < j < |order| ==> order[i] != order[j]
    ensures order[0] !in order[1..]
    ensures forall i, j :: 0 <= i < j < |order[1..]| ==> order[1..][i] != order[1..][j]
  {
    forall i, j | 0 <= i < j < |order[1..]| ensures order[1..][i] != order[1..][j] {
      assert order[1..][i] == order[i + 1] && order[1..][j] == order[j + 1];
    }
  }

  /** Events of the head connection (at most one) followed by repeat-free events of
      the tail's connections name distinct connections. */
  lemma EventsDistinctStep(order: seq<ConnectionId>, here: seq<ConnectionEvent>, rest: seq<ConnectionEvent>)
    requires |order| > 0 && |here| <= 1 && forall i :: 0 <= i < |here| ==> here[i].connectionId == order[0]
    requires order[0] !in order[1..]
    requires forall i :: 0 <= i < |rest| ==> rest[i].connectionId in order[1..]
    requires forall i, j :: 0 <= i < j < |rest| ==> rest[i].connectionId != rest[j].connectionId
    ensures forall i, j :: 0 <= i < j < |here + rest| ==> (here + rest)[i].connectionId != (here + rest)[j].connectionId
  {
    var all := here + rest;
    forall i, j | 0 <= i < j < |all| ensures all[i].connectionId != all[j].connectionId {
      if i < |here| {
        assert all[j] == rest[j - 1];
      } else {
        assert all[i] == rest[i - |here|] && all[j] == rest[j - |here|];
      }
    }
  }

  /** `ConnectionManager::send`: group the payloads per destination, hand each live
      destination its batch once, and report failed sends as `Disconnected` events
      without removing anything. `io` gives each connection's two write results and
      `order` is the iteration order of the grouping map. Only the connections' socket
      state changes; what is delivered and reported is stated by `SendDelivers` and
      `SendReports`. */
  function Send(cm: ConnectionManager, targeted: seq<(NetworkTarget, Payload)>, order: seq<ConnectionId>,
                codec: Codec, io: ConnectionId -> (WriteResult, WriteResult)): (r: (ConnectionManager, seq<ConnectionEvent>))
    requires ValidCodec(codec)
    requires Enumerates(order, Group(cm, targeted).Keys)
    ensures r.0 == cm.(connections := r.0.connections)
    ensures r.0.connections.Keys == cm.connections.Keys
    ensures forall c :: c in cm.connections ==> r.0.connections[c].actor == cm.connections[c].actor
  {
    var groups := Group(cm, targeted);
    var conns := map c | c in cm.connections ::
      if c in groups then cm.connections[c].(inner := SendOn(cm, c, groups[c], codec, io).0) else cm.connections[c];
    (cm.(connections := conns), SendEvents(cm, groups, order, codec, io))
  }

  /** Each connection receives exactly its batch: a connection no entry targets is left
      alone, an in-process queue gains the batch, and a socket whose two writes succeed
      gains one frame holding the encoded batch. */
  lemma SendDelivers(cm: ConnectionManager, targeted: seq<(NetworkTarget, Payload)>, order: seq<ConnectionId>,
                     codec: Codec, io: ConnectionId -> (WriteResult, WriteResult))
    requires ValidCodec(codec)
    requires Enumerates(order, Group(cm, targeted).Keys)
    ensures forall c :: c in cm.connections && c !in Destinations(cm, targeted) ==>
      Send(cm, targeted, order, codec, io).0.connections[c] == cm.connections[c]
    ensures forall c :: c in cm.connections && cm.connections[c].inner.Internal? ==>
      Send(cm, targeted, order, codec, io).0.connections[c].inner
        == Internal(cm.connections[c].inner.payloads + BatchFor(cm, targeted, c))
    ensures forall c :: c in cm.connections && cm.connections[c].inner.External? ==>
      && Send(cm, targeted, order, codec, io).0.connections[c].inner.External?
      && Send(cm, targeted, order, codec, io).0.connections[c].inner.avail == cm.connections[c].inner.avail
      && (c in Destinations(cm, targeted) && io(c) == (Written, Written) ==>
            Send(cm, targeted, order, codec, io).0.connections[c].inner.outbox
              == cm.connections[c].inner.outbox + Frame(codec.encode(BatchFor(cm, targeted, c))))
  {
    forall c | c in cm.connections
      ensures c !in Destinations(cm, targeted) ==>
        Send(cm, targeted, order, codec, io).0.connections[c] == cm.connections[c]
      ensures cm.connections[c].inner.Internal? ==>
        Send(cm, targeted, order, codec, io).0.connections[c].inner
          == Internal(cm.connections[c].inner.payloads + BatchFor(cm, targeted, c))
      ensures cm.connections[c].inner.External? ==>
        && Send(cm, targeted, order, codec, io).0.connections[c].inner.External?
        && Send(cm, targeted, order, codec, io).0.connections[c].inner.avail == cm.connections[c].inner.avail
        && (c in Destinations(cm, targeted) && io(c) == (Written, Written) ==>
              Send(cm, targeted, order, codec, io).0.connections[c].inner.outbox
                == cm.connections[c].inner.outbox + Frame(codec.encode(BatchFor(cm, targeted, c))))
    {
      SendDeliversAt(cm, targeted, order, codec, io, c);
    }
  }

  /** `SendDelivers` at one live connection. */
  lemma SendDeliversAt(cm: ConnectionManager, targeted: seq<(NetworkTarget, Payload)>, order: seq<ConnectionId>,
                       codec: Codec, io: ConnectionId -> (WriteResult, WriteResult), c: ConnectionId)
    requires ValidCodec(codec)
    requires Enumerates(order, Group(cm, targeted).Keys)
    requires c in cm.connections
    ensures c !in Destinations(cm, targeted) ==>
      Send(cm, targeted, order, codec, io).0.connections[c] == cm.connections[c]
    ensures cm.connections[c].inner.Internal? ==>
      Send(cm, targeted, order, codec, io).0.connections[c].inner
        == Internal(cm.connections[c].inner.payloads + BatchFor(cm, targeted, c))
    ensures cm.connections[c].inner.External? ==>
      && Send(cm, targeted, order, codec, io).0.connections[c].inner.External?
      && Send(cm, targeted, order, codec, io).0.connections[c].inner.avail == cm.connections[c].inner.avail
      && (c in Destinations(cm, targeted) && io(c) == (Written, Written) ==>
            Send(cm, targeted, order, codec, io).0.connections[c].inner.outbox
              == cm.connections[c].inner.outbox + Frame(codec.encode(BatchFor(cm, targeted, c))))
  {
    GroupIsBatchFor(cm, targeted);
    var groups := Group(cm, targeted);
    var after := Send(cm, targeted, order, codec, io).0.connections[c];
    var conn := cm.connections[c];
    if c in groups {
      assert groups[c] == BatchFor(cm, targeted, c);
      assert after == conn.(inner := SendOn(cm, c, groups[c], codec, io).0);
    } else {
      assert BatchFor(cm, targeted, c) == [];
      assert after == conn;
      if conn.inner.Internal? {
        assert conn.inner.payloads + [] == conn.inner.payloads;
      }
    }
  }

  /** The events are exactly the failed sends: each is a `Disconnected` for a targeted
      socket connection, every targeted connection whose send fails has one, and no
      connection is reported twice. */
  lemma SendReports(cm: ConnectionManager, targeted: seq<(NetworkTarget, Payload)>, order: seq<ConnectionId>,
                    codec: Codec, io: ConnectionId -> (WriteResult, WriteResult))
    requires ValidCodec(codec)
    requires Enumerates(order, Group(cm, targeted).Keys)
    ensures forall e :: e in Send(cm, targeted, order, codec, io).1 ==>
      && e.Disconnected? && e.connectionId in cm.connections && e.connectionId in Destinations(cm, targeted)
      && e.actor == cm.connections[e.connectionId].actor && e.cause == Io(OtherIo)
      && cm.connections[e.connectionId].inner.External?
    ensures forall c :: c in cm.connections && c in Destinations(cm, targeted)
                        && SendOn(cm, c, BatchFor(cm, targeted, c), codec, io).1.Err? ==>
      Disconnected(cm.connections[c].actor, c, Io(OtherIo)) in Send(cm, targeted, order, codec, io).1
    ensures |Send(cm, targeted, order, codec, io).1| <= |order|
    ensures forall i, j :: 0 <= i < j < |Send(cm, targeted, order, codec, io).1| ==>
      Send(cm, targeted, order, codec, io).1[i].connectionId != Send(cm, targeted, order, codec, io).1[j].connectionId
  {
    GroupIsBatchFor(cm, targeted);
  }

  /** Sending keeps the manager's bookkeeping valid. */
  lemma SendKeepsValid(cm: ConnectionManager, targeted: seq<(NetworkTarget, Payload)>, order: seq<ConnectionId>,
                       codec: Codec, io: ConnectionId -> (WriteResult, WriteResult))
    requires ValidCodec(codec)
    requires Enumerates(order, Group(cm, targeted).Keys)
    requires Valid(cm)
    ensures Valid(Send(cm, targeted, order, codec, io).0)
  {
  }

  /* ---------------- receive ---------------- */

  /** `Connection::receive` on the connection `c`; `faults(c)` is that socket's fault
      at each step of this call. */
  function Drain(cm: ConnectionManager, c: ConnectionId, codec: Codec, faults: ConnectionId -> seq<SocketFault>): (Inner, Result<seq<Payload>, Error>)
    requires c in cm.connections
  {
    ConnectionReceive(cm.connections[c].inner, codec, faults(c))
  }

  /** Each payload becomes a message from `sender` to `receiver`, in order. */
  function Stamp(payloads: seq<Payload>, sender: Actor, receiver: Actor): (r: seq<Message>)
    ensures |r| == |payloads|
    ensures forall i :: 0 <= i < |r| ==> r[i] == Message(payloads[i], sender, receiver)
  {
    seq(|payloads|, i requires 0 <= i < |payloads| => Message(payloads[i], sender, receiver))
  }

  /** The receive loop over the connections in `order`. */
  function Collect(cm: ConnectionManager, order: seq<ConnectionId>, local: Actor, codec: Codec,
                   faults: ConnectionId -> seq<SocketFault>): (r: (seq<Message>, seq<ConnectionEvent>))
    requires forall i :: 0 <= i < |order| ==> order[i] in cm.connections
    ensures forall m :: m in r.0 ==>
      && m.receiver == local
      && exists c :: c in order && m.sender == cm.connections[c].actor
           && Drain(cm, c, codec, faults).1.Ok? && m.payload in Drain(cm, c, codec, faults).1.value
    ensures forall c, p :: c in order && Drain(cm, c, codec, faults).1.Ok? && p in Drain(cm, c, codec, faults).1.value ==>
      Message(p, cm.connections[c].actor, local) in r.0
    ensures forall e :: e in r.1 <==>
      exists c :: c in order && Drain(cm, c, codec, faults).1.Err?
        && e == Disconnected(cm.connections[c].actor, c, Drain(cm, c, codec, faults).1.error)
  {
    if order == [] then ([], [])
    else
      var c := order[0];
      var rest := Collect(cm, order[1..], local, codec, faults);
      var drained := Drain(cm, c, codec, faults);
      match drained.1
      case Ok(ps) => (Stamp(ps, cm.connections[c].actor, local) + rest.0, rest.1)
      case Err(e) => (rest.0, [Disconnected(cm.connections[c].actor, c, e)] + rest.1)
  }

  /** `ConnectionManager::receive`: drain every connection; payloads become messages
      stamped with the connection's actor as sender and the local actor as receiver,
      and a failed drain becomes a `Disconnected` event instead. The local actor must be
      resolvable (the source's `expect`). */
  function Receive(cm: ConnectionManager, order: seq<ConnectionId>, codec: Codec, faults: ConnectionId -> seq<SocketFault>):
    (r: (ConnectionManager, seq<Message>, seq<ConnectionEvent>))
    requires LocalIndexed(cm)
    requires Enumerates(order, cm.connections.Keys)
    ensures r.0.connections.Keys == cm.connections.Keys
    ensures r.0.connectionIds == cm.connectionIds && r.0.localActorId == cm.localActorId
    ensures r.0.nextConnectionId == cm.nextConnectionId && r.0.nextActorId == cm.nextActorId
    ensures forall c :: c in cm.connections ==>
      r.0.connections[c] == cm.connections[c].(inner := Drain(cm, c, codec, faults).0)
    ensures Valid(cm) ==> Valid(r.0) && r.0.connections[LOOPBACK].inner == Internal([])
  {
    var local := cm.connections[cm.connectionIds[cm.localActorId]].actor;
    var collected := Collect(cm, order, local, codec, faults);
    var conns := map c | c in cm.connections :: cm.connections[c].(inner := Drain(cm, c, codec, faults).0);
    InnersKeepValid(cm, conns);
    (cm.(connections := conns), collected.0, collected.1)
  }

  /** Replacing each connection's socket state by one of the same kind, keeping its
      actor, keeps the manager valid. */
  lemma InnersKeepValid(cm: ConnectionManager, conns: map<ConnectionId, Connection>)
    requires conns.Keys == cm.connections.Keys
    requires forall c :: c in cm.connections ==>
      conns[c].actor == cm.connections[c].actor && conns[c].inner.External? == cm.connections[c].inner.External?
    ensures Valid(cm) ==> Valid(cm.(connections := conns))
  {
  }

  /** The messages are exactly the drained payloads, each stamped with its connection's
      actor as sender and the local actor as receiver; the events are exactly the failed
      drains, each a `Disconnected` naming the connection and the cause. */
  lemma ReceiveCollects(cm: ConnectionManager, order: seq<ConnectionId>, codec: Codec, faults: ConnectionId -> seq<SocketFault>)
    requires LocalIndexed(cm)
    requires Enumerates(order, cm.connections.Keys)
    ensures forall m :: m in Receive(cm, order, codec, faults).1 ==>
      && Some(m.receiver) == LocalActor(cm)
      && exists c :: c in cm.connections && m.sender == cm.connections[c].actor
           && Drain(cm, c, codec, faults).1.Ok? && m.payload in Drain(cm, c, codec, faults).1.value
    ensures forall c, p :: c in cm.connections && Drain(cm, c, codec, faults).1.Ok? && p in Drain(cm, c, codec, faults).1.value ==>
      Message(p, cm.connections[c].actor, LocalActor(cm).value) in Receive(cm, order, codec, faults).1
    ensures forall e :: e in Receive(cm, order, codec, faults).2 <==>
      exists c :: c in cm.connections && Drain(cm, c, codec, faults).1.Err?
        && e == Disconnected(cm.connections[c].actor, c, Drain(cm, c, codec, faults).1.error)
  {
  }

  /** The loopback drains without failing and its queue comes back whole. */
  lemma LoopbackDrains(cm: ConnectionManager, codec: Codec, faults: ConnectionId -> seq<SocketFault>)
    requires Valid(cm)
    ensures Drain(cm, LOOPBACK, codec, faults) == (Internal([]), Ok(cm.connections[LOOPBACK].inner.payloads))
  {
    var q := cm.connections[LOOPBACK].inner.payloads;
    assert [] + q == q;
  }

  /** The loopback never fails to receive, so no `Disconnected` event names it or the
      local actor. */
  lemma ReceiveNeverDisconnectsLocal(cm: ConnectionManager, order: seq<ConnectionId>, codec: Codec, faults: ConnectionId -> seq<SocketFault>)
    requires Valid(cm) && Enumerates(order, cm.connections.Keys)
    ensures forall e :: e in Receive(cm, order, codec, faults).2 ==>
      e.connectionId != LOOPBACK && e.actor.id != cm.localActorId
  {
    var events := Receive(cm, order, codec, faults).2;
    ReceiveCollects(cm, order, codec, faults);
    LoopbackDrains(cm, codec, faults);
    forall e | e in events
      ensures e.connectionId != LOOPBACK && e.actor.id != cm.localActorId
    {
      var c :| c in cm.connections && Drain(cm, c, codec, faults).1.Err?
        && e == Disconnected(cm.connections[c].actor, c, Drain(cm, c, codec, faults).1.error);
      assert c != LOOPBACK;
      assert cm.connectionIds[cm.connections[c].actor.id] == c;
    }
  }

  /** Every payload queued on the loopback comes back as a message from the local
      actor to itself. */
  lemma LoopbackDelivers(cm: ConnectionManager, order: seq<ConnectionId>, codec: Codec, faults: ConnectionId -> seq<SocketFault>)
    requires Valid(cm) && Enumerates(order, cm.connections.Keys)
    ensures forall p :: p in cm.connections[LOOPBACK].inner.payloads ==>
      Message(p, cm.connections[LOOPBACK].actor, cm.connections[LOOPBACK].actor) in Receive(cm, order, codec, faults).1
  {
    ReceiveCollects(cm, order, codec, faults);
    LoopbackDrains(cm, codec, faults);
    assert LocalActor(cm) == Some(cm.connections[LOOPBACK].actor);
  }

  /* ---------------- removal, generators, re-keying ---------------- */

  /** `remove`: drop an actor's index entry and its connection; an unknown actor
      changes nothing. */
  function Remove(cm: ConnectionManager, actorId: ActorId): (r: ConnectionManager)
    ensures actorId !in r.connectionIds
    ensures actorId !in cm.connectionIds ==> r == cm
    ensures actorId in cm.connectionIds ==>
      && r.connections == cm.connections - {cm.connectionIds[actorId]}
      && r.connectionIds == cm.connectionIds - {actorId}
    ensures r.nextConnectionId == cm.nextConnectionId && r.nextActorId == cm.nextActorId
    ensures r.localActorId == cm.localActorId && r.localConnectionId == cm.localConnectionId
  {
    if actorId in cm.connectionIds then
      cm.(connectionIds := cm.connectionIds - {actorId},
          connections := cm.connections - {cm.connectionIds[actorId]})
    else cm
  }

  /** Removing any actor but the local one keeps the manager valid and takes exactly
      that actor's connection out of the table. */
  lemma RemoveKeepsValid(cm: ConnectionManager, actorId: ActorId)
    requires Valid(cm) && actorId != cm.localActorId
    ensures Valid(Remove(cm, actorId))
    ensures actorId in cm.connectionIds ==>
      Remove(cm, actorId).connections.Keys == cm.connections.Keys - {cm.connectionIds[actorId]}
    ensures forall c :: c in Remove(cm, actorId).connections ==> TargetedBy(cm.connections[c].actor, ActorId(actorId)) == false
  {
  }

  /** `generate_connection_id`: hand out the counter, then increment it. */
  function GenerateConnectionId(cm: ConnectionManager): (r: (ConnectionId, ConnectionManager))
    ensures r.0 == cm.nextConnectionId && r.1 == cm.(nextConnectionId := cm.nextConnectionId + 1)
    ensures Valid(cm) ==> Valid(r.1) && r.0 !in cm.connections
  {
    (cm.nextConnectionId, cm.(nextConnectionId := cm.nextConnectionId + 1))
  }

  /** `generate_actor_id`: hand out the counter, then increment it. */
  function GenerateActorId(cm: ConnectionManager): (r: (ActorId, ConnectionManager))
    ensures r.0 == cm.nextActorId && r.1 == cm.(nextActorId := cm.nextActorId + 1)
    ensures Valid(cm) ==> Valid(r.1)
  {
    (cm.nextActorId, cm.(nextActorId := cm.nextActorId + 1))
  }

  /** `set_local_actor_id`: move the loopback's index entry to the new id and rename
      the loopback's actor. Both `expect`s of the source are the precondition. */
  function SetLocalActorId(cm: ConnectionManager, actorId: ActorId): (r: ConnectionManager)
    requires LocalIndexed(cm)
    ensures r.localActorId == actorId
    ensures actorId in r.connectionIds && r.connectionIds[actorId] == cm.connectionIds[cm.localActorId]
    ensures r.connections.Keys == cm.connections.Keys
    ensures forall c :: c in cm.connections && c != cm.connectionIds[cm.localActorId] ==> r.connections[c] == cm.connections[c]
    ensures r.connections[cm.connectionIds[cm.localActorId]].actor
         == cm.connections[cm.connectionIds[cm.localActorId]].actor.(id := actorId)
    ensures r.connections[cm.connectionIds[cm.localActorId]].inner == cm.connections[cm.connectionIds[cm.localActorId]].inner
    ensures forall a :: a in cm.connectionIds && a != cm.localActorId && a != actorId ==>
      a in r.connectionIds && r.connectionIds[a] == cm.connectionIds[a]
    ensures forall a :: a in r.connectionIds ==> a == actorId || a in cm.connectionIds
    ensures cm.localActorId != actorId ==> cm.localActorId !in r.connectionIds
    ensures r.nextConnectionId == cm.nextConnectionId && r.nextActorId == cm.nextActorId
    ensures Valid(cm) && (actorId == cm.localActorId || actorId !in cm.connectionIds) ==>
      Valid(r) && LocalActor(r) == Some(cm.connections[LOOPBACK].actor.(id := actorId))
  {
    var c := cm.connectionIds[cm.localActorId];
    var conn := cm.connections[c];
    var r := cm.(connectionIds := (cm.connectionIds - {cm.localActorId})[actorId := c],
                 connections := cm.connections[c := conn.(actor := conn.actor.(id := actorId))],
                 localActorId := actorId);
    RenameKeepsValid(cm, actorId, r);
    r
  }

  /** Renaming the loopback's actor to an id no other connection uses keeps the
      manager valid, with the loopback now the local actor under the new id. */
  lemma RenameKeepsValid(cm: ConnectionManager, actorId: ActorId, r: ConnectionManager)
    requires LocalIndexed(cm)
    requires var c := cm.connectionIds[cm.localActorId];
      r == cm.(connectionIds := (cm.connectionIds - {cm.localActorId})[actorId := c],
               connections := cm.connections[c := cm.connections[c].(actor := cm.connections[c].actor.(id := actorId))],
               localActorId := actorId)
    ensures Valid(cm) && (actorId == cm.localActorId || actorId !in cm.connectionIds) ==>
      Valid(r) && LocalActor(r) == Some(cm.connections[LOOPBACK].actor.(id := actorId))
  {
  }

  /* ---------------- connect-time handshake ---------------- */

  /** The resolution step of `add_connection`: a received `Override` renames the local
      actor and names the peer; otherwise our own `Override` names the peer; if neither
      side overrode, the peer gets a fresh id from the generator. */
  function ResolveHandshake(cm: ConnectionManager, sent: Handshake, received: Handshake): (r: (ConnectionManager, ActorId))
    requires received.Override? ==> LocalIndexed(cm)
    ensures received.Override? ==>
      r == (SetLocalActorId(cm, received.receiverActorId), received.senderActorId)
    ensures received.NoOverride? && sent.Override? ==> r == (cm, sent.receiverActorId)
    ensures received.NoOverride? && sent.NoOverride? ==>
      r.1 == cm.nextActorId && r.0 == cm.(nextActorId := cm.nextActorId + 1)
    ensures r.0.connections.Keys == cm.connections.Keys && r.0.nextConnectionId == cm.nextConnectionId
  {
    match received
    case Override(senderId, receiverId) => (SetLocalActorId(cm, receiverId), senderId)
    case NoOverride =>
      match sent
      case Override(_, receiverId) => (cm, receiverId)
      case NoOverride =>
        var (id, cm') := GenerateActorId(cm);
        (cm', id)
  }

  /** The id the peer will be known by after resolution, computed from `cm` alone. */
  function RemoteIdAfter(cm: ConnectionManager, sent: Handshake, received: Handshake): ActorId {
    match received
    case Override(senderId, _) => senderId
    case NoOverride => match sent case Override(_, receiverId) => receiverId case NoOverride => cm.nextActorId
  }

  /** The handshake will not make two connections share an actor id: a received local
      id is free (or unchanged), and the peer's id is neither the new local id nor the
      id of any other existing peer. */
  predicate HandshakeFresh(cm: ConnectionManager, sent: Handshake, received: Handshake) {
    match received
    case Override(senderId, receiverId) =>
      && (receiverId == cm.localActorId || receiverId !in cm.connectionIds)
      && senderId != receiverId
      && (senderId == cm.localActorId || senderId !in cm.connectionIds)
    case NoOverride => RemoteIdAfter(cm, sent, received) !in cm.connectionIds
  }

  /** `add_connection` after the handshake exchange: resolve both ids, allocate a fresh
      connection id, install the stream and its index entry together, and report
      `Connected`. `received` is the peer's handshake (the socket exchange is not
      modelled). */
  function AddConnection(cm: ConnectionManager, actorTy: ActorTy, sent: Handshake, received: Handshake):
    (r: (ConnectionManager, ConnectionEvent))
    requires received.Override? ==> LocalIndexed(cm)
    ensures r.1 == Connected(Actor(RemoteIdAfter(cm, sent, received), actorTy), cm.nextConnectionId)
    ensures r.0.nextConnectionId == cm.nextConnectionId + 1
    ensures r.0.connections.Keys == cm.connections.Keys + {cm.nextConnectionId}
    ensures r.0.connections[cm.nextConnectionId] == Connection(External([], None, []), r.1.actor)
    ensures r.1.actor.id in r.0.connectionIds && r.0.connectionIds[r.1.actor.id] == cm.nextConnectionId
    ensures r.0.localActorId == (if received.Override? then received.receiverActorId else cm.localActorId)
    ensures r.0.nextActorId == (if received.NoOverride? && sent.NoOverride? then cm.nextActorId + 1 else cm.nextActorId)
    ensures LocalIndexed(cm) ==> LocalIndexed(r.0)
    ensures IndexLive(cm) ==> IndexLive(r.0)
    ensures Valid(cm) && HandshakeFresh(cm, sent, received) ==> Valid(r.0)
    ensures IdsBelowGenerator(cm) && received.NoOverride? && sent.Override? && sent.receiverActorId < cm.nextActorId ==>
      IdsBelowGenerator(r.0)
  {
    var (cm1, actorId) := ResolveHandshake(cm, sent, received);
    var actor := Actor(actorId, actorTy);
    var (connectionId, cm2) := GenerateConnectionId(cm1);
    var connection := Connection(External([], None, []), actor);
    ResolvedFresh(cm, sent, received);
    InstallKeepsValid(cm2, connectionId, connection);
    (cm2.(connections := cm2.connections[connectionId := connection],
          connectionIds := cm2.connectionIds[actor.id := connectionId]),
     Connected(actor, connectionId))
  }

  /** A fresh handshake on a valid manager resolves to a valid manager and a peer id
      that no connection uses yet. */
  lemma ResolvedFresh(cm: ConnectionManager, sent: Handshake, received: Handshake)
    requires received.Override? ==> LocalIndexed(cm)
    ensures Valid(cm) && HandshakeFresh(cm, sent, received) ==>
      && Valid(ResolveHandshake(cm, sent, received).0)
      && ResolveHandshake(cm, sent, received).1 !in ResolveHandshake(cm, sent, received).0.connectionIds
  {
  }

  /** Installing a stream under an unused actor id at an unused connection id, with
      the generator past it, keeps the manager valid. */
  lemma InstallKeepsValid(cm: ConnectionManager, id: ConnectionId, connection: Connection)
    ensures Valid(cm) && id !in cm.connections && id < cm.nextConnectionId && connection.inner.External?
            && connection.actor.id !in cm.connectionIds ==>
      Valid(cm.(connections := cm.connections[id := connection],
                connectionIds := cm.connectionIds[connection.actor.id := id]))
  {
  }

  /* ---------------- disconnect handling ---------------- */

  /** `disconnect_handler_system`: remove the actor of every `Disconnected` event. */
  function HandleDisconnects(cm: ConnectionManager, events: seq<ConnectionEvent>): (r: ConnectionManager)
    ensures forall i :: 0 <= i < |events| && events[i].Disconnected? ==> events[i].actor.id !in r.connectionIds
    ensures r.connections.Keys <= cm.connections.Keys && r.localActorId == cm.localActorId
    ensures Valid(cm) && (forall i :: 0 <= i < |events| ==> events[i].actor.id != cm.localActorId) ==> Valid(r)
    decreases |events|
  {
    if events == [] then cm
    else
      var last := events[|events| - 1];
      var before := HandleDisconnects(cm, events[..|events| - 1]);
      var after := if last.Disconnected? then Remove(before, last.actor.id) else before;
      DisconnectStep(cm, events, events[..|events| - 1], before, after);
      after
  }

  /** The step of `HandleDisconnects`: removing the last event's actor (or nothing)
      keeps every earlier disconnected actor out of the index, and keeps the manager
      valid when no event names the local actor. */
  lemma DisconnectStep(cm: ConnectionManager, events: seq<ConnectionEvent>, init: seq<ConnectionEvent>,
                        before: ConnectionManager, after: ConnectionManager)
    requires |events| > 0 && init == events[..|events| - 1]
    requires forall i :: 0 <= i < |init| && init[i].Disconnected? ==> init[i].actor.id !in before.connectionIds
    requires Valid(cm) && (forall i :: 0 <= i < |init| ==> init[i].actor.id != cm.localActorId) ==> Valid(before)
    requires before.localActorId == cm.localActorId
    requires after == if events[|events| - 1].Disconnected? then Remove(before, events[|events| - 1].actor.id) else before
    ensures forall i :: 0 <= i < |events| && events[i].Disconnected? ==> events[i].actor.id !in after.connectionIds
    ensures Valid(cm) && (forall i :: 0 <= i < |events| ==> events[i].actor.id != cm.localActorId) ==> Valid(after)
  {
    assert forall i :: 0 <= i < |init| ==> init[i] == events[i];
    if Valid(cm) && (forall i :: 0 <= i < |events| ==> events[i].actor.id != cm.localActorId) {
      if events[|events| - 1].Disconnected? {
        RemoveKeepsValid(before, events[|events| - 1].actor.id);
      }
    }
  }

  /** A peer that answers with an `Override` naming the same id for both sides takes
      over the local actor's index entry; once that peer disconnects, the local actor is
      no longer indexed, which is the state in which `receive` panics. */
  lemma CollidingOverrideUnindexesLocal(cm: ConnectionManager, actorTy: ActorTy, sent: Handshake, id: ActorId)
    requires LocalIndexed(cm)
    ensures var (cm1, connected) := AddConnection(cm, actorTy, sent, Override(id, id));
      && LocalIndexed(cm1)
      && !LocalIndexed(HandleDisconnects(cm1, [Disconnected(connected.actor, connected.connectionId, Io(OtherIo))]))
  {
  }

  /** The same colliding handshake on a valid manager leaves every index entry live but
      the index inconsistent: the loopback's actor id now indexes the new peer, so
      anything addressed to the local actor by id reaches the peer instead. */
  lemma CollidingOverrideMisaddressesLoopback(cm: ConnectionManager, actorTy: ActorTy, sent: Handshake, id: ActorId)
    requires Valid(cm)
    ensures var r := AddConnection(cm, actorTy, sent, Override(id, id)).0;
      && IndexLive(r) && !IndexConsistent(r)
      && LOOPBACK in r.connections && r.connections[LOOPBACK].actor.id == id
      && TargetedConnectionIds(r, ActorId(r.connections[LOOPBACK].actor.id)) == {cm.nextConnectionId}
  {
    var r := AddConnection(cm, actorTy, sent, Override(id, id)).0;
    assert cm.nextConnectionId != LOOPBACK;
    assert r.connectionIds[id] != LOOPBACK;
  }
}
