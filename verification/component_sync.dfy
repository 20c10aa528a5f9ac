/** Replicated attributes (component_sync.rs): the per-object `ComponentSync` flag and
    ownership, and the four systems that receive, re-mark and send one attribute type.
    The attribute type is a type parameter `V`; its serialisation is a pair of function
    parameters. The world is the set of local objects carrying the attribute, its
    `ComponentSync` and a network id, keyed by their local handle. */
module ComponentSyncing {
  import opened Addressing
  import opened Messages
  import opened Registry
  import opened Connections
  import opened Handles
  import opened Settings

  /** `ComponentSync<T>`: whether the attribute must be sent, and who may change it. */
  datatype ComponentSync = ComponentSync(shouldSync: bool, ownership: NetworkTarget)

  /** One local object: its attribute value, its sync state and its network id. */
  datatype Synced<V> = Synced(value: V, sync: ComponentSync, networkEntity: NetworkEntity)

  type World<V> = map<Entity, Synced<V>>

  /** `ComponentSync::new`: owned by `ownership`, and due to be sent. */
  function NewSync(ownership: NetworkTarget): (r: ComponentSync)
    ensures r.shouldSync && r.ownership == ownership
  {
    ComponentSync(true, ownership)
  }

  /** `ComponentSync::id`: owned by one actor. */
  function IdSync(actorId: ActorId): (r: ComponentSync)
    ensures r.shouldSync
    ensures forall a: Actor :: TargetedBy(a, r.ownership) <==> a.id == actorId
  {
    NewSync(ActorId(actorId))
  }

  /** `ComponentSync::ty`: owned by every actor of one role. */
  function TySync(actorTy: ActorTy): (r: ComponentSync)
    ensures r.shouldSync
    ensures forall a: Actor :: TargetedBy(a, r.ownership) <==> a.ty == actorTy
  {
    NewSync(ActorTy(actorTy))
  }

  /** `ComponentSync::all`: anyone may change it. */
  function AllSync(): (r: ComponentSync)
    ensures r.shouldSync
    ensures forall a: Actor :: TargetedBy(a, r.ownership)
  {
    NewSync(All)
  }

  /** `ComponentSync::sync`: mark as due to be sent; the ownership stays. */
  function MarkSync(s: ComponentSync): (r: ComponentSync)
    ensures r.shouldSync && r.ownership == s.ownership
  {
    s.(shouldSync := true)
  }

  /* ---------------- receiving ---------------- */

  /** The message is an update of this attribute type for the object `e`, sent by an
      actor its ownership admits: the only kind the receiving system applies to `e`. */
  predicate Applicable<V>(m: Message, e: Entity, world: World<V>, reg: NetworkEntityRegistry, uuid: Uuid) {
    && m.payload.ComponentUpdate?
    && m.payload.networkTypeUuid == uuid
    && m.payload.targetEntity in reg.entities
    && reg.entities[m.payload.targetEntity] == e
    && e in world
    && TargetedBy(m.sender, world[e].sync.ownership)
  }

  /** One message of `component_sync_receiving_system`: an update of another type, of
      an unregistered network id, of an object without the attribute, or from a sender
      the ownership does not admit changes nothing; otherwise the value is replaced
      wholesale by the decoded bytes. */
  function ApplyUpdate<V>(world: World<V>, reg: NetworkEntityRegistry, uuid: Uuid, fromBytes: Bytes -> V, m: Message):
    (r: World<V>)
    ensures r.Keys == world.Keys
    ensures forall e :: e in world ==> r[e].sync == world[e].sync && r[e].networkEntity == world[e].networkEntity
    ensures forall e :: e in world ==>
      r[e].value == if Applicable(m, e, world, reg, uuid) then fromBytes(m.payload.data) else world[e].value
  {
    match m.payload
    case Spawn(_, _) => world
    case ComponentUpdate(target, typeUuid, data) =>
      if typeUuid != uuid then world
      else if target !in reg.entities then world
      else
        var e := reg.entities[target];
        if e !in world then world
        else if !TargetedBy(m.sender, world[e].sync.ownership) then world
        else world[e := world[e].(value := fromBytes(data))]
  }

  /** The ownership gate: an update from a sender the target's ownership does not admit
      leaves every object exactly as it was. */
  lemma NonOwnerIgnored<V>(world: World<V>, reg: NetworkEntityRegistry, uuid: Uuid, fromBytes: Bytes -> V, m: Message)
    requires m.payload.ComponentUpdate? && m.payload.targetEntity in reg.entities
    requires reg.entities[m.payload.targetEntity] in world
    requires !TargetedBy(m.sender, world[reg.entities[m.payload.targetEntity]].sync.ownership)
    ensures ApplyUpdate(world, reg, uuid, fromBytes, m) == world
  {
  }

  /** `component_sync_receiving_system` over the tick's messages in order: each object
      ends with the value of the last update applicable to it, or keeps its value when
      none is; sync state and network ids never change. */
  method ReceivingSystem<V>(world: World<V>, reg: NetworkEntityRegistry, uuid: Uuid, fromBytes: Bytes -> V,
                            messages: seq<Message>) returns (r: World<V>)
    ensures r.Keys == world.Keys
    ensures forall e :: e in world ==> r[e].sync == world[e].sync && r[e].networkEntity == world[e].networkEntity
    ensures forall e :: e in world && (forall i :: 0 <= i < |messages| ==> !Applicable(messages[i], e, world, reg, uuid)) ==>
      r[e].value == world[e].value
    ensures forall e, i :: e in world && 0 <= i < |messages| && Applicable(messages[i], e, world, reg, uuid)
                           && (forall j :: i < j < |messages| ==> !Applicable(messages[j], e, world, reg, uuid)) ==>
      r[e].value == fromBytes(messages[i].payload.data)
  {
    r := world;
    var k := 0;
    while k < |messages|
      invariant 0 <= k <= |messages|
      invariant r.Keys == world.Keys
      invariant forall e :: e in world ==> r[e].sync == world[e].sync && r[e].networkEntity == world[e].networkEntity
      invariant forall e :: e in world && (forall i :: 0 <= i < k ==> !Applicable(messages[i], e, world, reg, uuid)) ==>
        r[e].value == world[e].value
      invariant forall e, i :: e in world && 0 <= i < k && Applicable(messages[i], e, world, reg, uuid)
                               && (forall j :: i < j < k ==> !Applicable(messages[j], e, world, reg, uuid)) ==>
        r[e].value == fromBytes(messages[i].payload.data)
    {
      ApplyStep(world, r, reg, uuid, fromBytes, messages, k);
      r := ApplyUpdate(r, reg, uuid, fromBytes, messages[k]);
      k := k + 1;
    }
  }

  /** One turn of the receiving loop: applying message `k` extends both value facts
      from the first `k` messages to the first `k + 1`. */
  lemma ApplyStep<V>(world: World<V>, cur: World<V>, reg: NetworkEntityRegistry, uuid: Uuid, fromBytes: Bytes -> V,
                     messages: seq<Message>, k: nat)
    requires k < |messages|
    requires cur.Keys == world.Keys
    requires forall e :: e in world ==> cur[e].sync == world[e].sync && cur[e].networkEntity == world[e].networkEntity
    requires forall e :: e in world && (forall i :: 0 <= i < k ==> !Applicable(messages[i], e, world, reg, uuid)) ==>
      cur[e].value == world[e].value
    requires forall e, i :: e in world && 0 <= i < k && Applicable(messages[i], e, world, reg, uuid)
                            && (forall j :: i < j < k ==> !Applicable(messages[j], e, world, reg, uuid)) ==>
      cur[e].value == fromBytes(messages[i].payload.data)
    ensures var next := ApplyUpdate(cur, reg, uuid, fromBytes, messages[k]);
      && (forall e :: e in world && (forall i :: 0 <= i < k + 1 ==> !Applicable(messages[i], e, world, reg, uuid)) ==>
            next[e].value == world[e].value)
      && (forall e, i :: e in world && 0 <= i < k + 1 && Applicable(messages[i], e, world, reg, uuid)
                         && (forall j :: i < j < k + 1 ==> !Applicable(messages[j], e, world, reg, uuid)) ==>
            next[e].value == fromBytes(messages[i].payload.data))
  {
    var next := ApplyUpdate(cur, reg, uuid, fromBytes, messages[k]);
    ApplyEffect(world, cur, reg, uuid, fromBytes, messages[k]);
    forall e | e in world && (forall i :: 0 <= i < k + 1 ==> !Applicable(messages[i], e, world, reg, uuid))
      ensures next[e].value == world[e].value
    {
      assert !Applicable(messages[k], e, world, reg, uuid);
      assert forall i :: 0 <= i < k ==> !Applicable(messages[i], e, world, reg, uuid);
    }
    forall e, i | e in world && 0 <= i < k + 1 && Applicable(messages[i], e, world, reg, uuid)
                  && (forall j :: i < j < k + 1 ==> !Applicable(messages[j], e, world, reg, uuid))
      ensures next[e].value == fromBytes(messages[i].payload.data)
    {
      if i < k {
        assert !Applicable(messages[k], e, world, reg, uuid);
        assert forall j :: i < j < k ==> !Applicable(messages[j], e, world, reg, uuid);
      }
    }
  }

  /** Applying one message to a world with the loop's sync states: each object gets the
      message's value exactly when the message applies to it in the original world. */
  lemma ApplyEffect<V>(world: World<V>, cur: World<V>, reg: NetworkEntityRegistry, uuid: Uuid, fromBytes: Bytes -> V, m: Message)
    requires cur.Keys == world.Keys
    requires forall e :: e in world ==> cur[e].sync == world[e].sync
    ensures forall e :: e in world ==>
      ApplyUpdate(cur, reg, uuid, fromBytes, m)[e].value
        == if Applicable(m, e, world, reg, uuid) then fromBytes(m.payload.data) else cur[e].value
  {
    SameGate(cur, world, reg, uuid, m);
  }

  /** Whether a message applies depends only on the sync state of the objects, which
      the receiving loop never changes. */
  lemma SameGate<V>(cur: World<V>, world: World<V>, reg: NetworkEntityRegistry, uuid: Uuid, m: Message)
    requires cur.Keys == world.Keys
    requires forall e :: e in world ==> cur[e].sync == world[e].sync
    ensures forall e :: Applicable(m, e, cur, reg, uuid) <==> Applicable(m, e, world, reg, uuid)
  {
  }

  /* ---------------- re-marking ---------------- */

  /** Every object marked due to be sent; nothing else changes. */
  function MarkAll<V>(world: World<V>): (r: World<V>)
    ensures r.Keys == world.Keys
    ensures forall e :: e in world ==> r[e] == world[e].(sync := MarkSync(world[e].sync))
  {
    map e | e in world :: world[e].(sync := MarkSync(world[e].sync))
  }

  /** `component_sync_connect_system`: every `Connected` event of the tick marks every
      object of the attribute type as due to be sent, so a new peer receives the full
      current state; `Disconnected` events change nothing. */
  function ConnectSystem<V>(world: World<V>, events: seq<ConnectionEvent>): (r: World<V>)
    ensures r.Keys == world.Keys
    ensures forall e :: e in world ==>
      && r[e].value == world[e].value && r[e].networkEntity == world[e].networkEntity
      && r[e].sync.ownership == world[e].sync.ownership
      && (r[e].sync.shouldSync <==> world[e].sync.shouldSync || exists i :: 0 <= i < |events| && events[i].Connected?)
    decreases |events|
  {
    if events == [] then world
    else
      var rest := ConnectSystem(if events[0].Connected? then MarkAll(world) else world, events[1..]);
      assert forall i :: 1 <= i < |events| ==> events[i] == events[1..][i - 1];
      rest
  }

  /** `component_sync_marking_system`: every object whose attribute changed this tick
      is marked due to be sent; others are left alone. */
  function MarkingSystem<V>(world: World<V>, changed: set<Entity>): (r: World<V>)
    ensures r.Keys == world.Keys
    ensures forall e :: e in world ==>
      && r[e].value == world[e].value && r[e].networkEntity == world[e].networkEntity
      && r[e].sync.ownership == world[e].sync.ownership
      && (r[e].sync.shouldSync <==> world[e].sync.shouldSync || e in changed)
  {
    map e | e in world :: if e in changed then world[e].(sync := MarkSync(world[e].sync)) else world[e]
  }

  /* ---------------- sending ---------------- */

  /** One `ComponentUpdate` per audience, in audience order, all carrying the same bytes. */
  function UpdateEntries(targets: seq<NetworkTarget>, ne: NetworkEntity, uuid: Uuid, data: Bytes):
    (r: seq<(NetworkTarget, Payload)>)
    ensures |r| == |targets|
    ensures forall i :: 0 <= i < |targets| ==> r[i] == (targets[i], ComponentUpdate(ne, uuid, data))
  {
    seq(|targets|, i requires 0 <= i < |targets| => (targets[i], ComponentUpdate(ne, uuid, data)))
  }

  /** What the sending system queues for one object: nothing unless it is due to be sent
      and the local actor exists and is admitted by its ownership; then one update per
      configured audience carrying the encoded value. */
  function UpdatesFor<V>(s: Synced<V>, local: Option<Actor>, syncWith: seq<NetworkTarget>, uuid: Uuid,
                         toBytes: V -> Bytes): seq<(NetworkTarget, Payload)>
  {
    if s.sync.shouldSync && local.Some? && TargetedBy(local.value, s.sync.ownership)
    then UpdateEntries(syncWith, s.networkEntity, uuid, toBytes(s.value))
    else []
  }

  /** The updates for the objects of `order`, in that order. */
  function QueuedUpdates<V>(world: World<V>, order: seq<Entity>, local: Option<Actor>, syncWith: seq<NetworkTarget>,
                            uuid: Uuid, toBytes: V -> Bytes): seq<(NetworkTarget, Payload)>
    requires forall i :: 0 <= i < |order| ==> order[i] in world
  {
    if order == [] then []
    else UpdatesFor(world[order[0]], local, syncWith, uuid, toBytes)
         + QueuedUpdates(world, order[1..], local, syncWith, uuid, toBytes)
  }

  /** The inner loop of `component_sync_sending_system`: one `sync_component` call per
      audience. */
  method SyncToTargets(h: NetworkHandle, targets: seq<NetworkTarget>, ne: NetworkEntity, uuid: Uuid, data: Bytes)
    returns (r: NetworkHandle)
    ensures r.spawnMessages == h.spawnMessages
    ensures r.payloads == h.payloads + UpdateEntries(targets, ne, uuid, data)
  {
    r := h;
    var k := 0;
    while k < |targets|
      invariant 0 <= k <= |targets|
      invariant r.spawnMessages == h.spawnMessages
      invariant r.payloads == h.payloads + UpdateEntries(targets[..k], ne, uuid, data)
    {
      assert UpdateEntries(targets[..k + 1], ne, uuid, data)
          == UpdateEntries(targets[..k], ne, uuid, data) + [(targets[k], ComponentUpdate(ne, uuid, data))];
      r := SyncComponent(r, targets[k], ne, uuid, data);
      k := k + 1;
    }
    assert targets[..k] == targets;
  }

  /** The world with every object's flag cleared. */
  function Cleared<V>(world: World<V>): (r: World<V>)
    ensures r.Keys == world.Keys
    ensures forall e :: e in world ==> r[e] == world[e].(sync := world[e].sync.(shouldSync := false))
  {
    map e | e in world :: world[e].(sync := world[e].sync.(shouldSync := false))
  }

  /** `component_sync_sending_system` over the objects in query order: every flag is
      cleared, whether or not anything is sent; an object that was due and is owned by
      the local actor queues one update per configured audience; values, ownership and
      spawn requests are untouched. */
  method SendingSystem<V>(world: World<V>, order: seq<Entity>, h: NetworkHandle, cm: ConnectionManager,
                          settings: NetworkSettings, uuid: Uuid, toBytes: V -> Bytes)
    returns (world': World<V>, h': NetworkHandle)
    requires Enumerates(order, world.Keys)
    ensures world' == Cleared(world)
    ensures h'.spawnMessages == h.spawnMessages
    ensures h'.payloads == h.payloads + QueuedUpdates(world, order, LocalActor(cm), settings.syncComponentsWith, uuid, toBytes)
  {
    world' := world;
    h' := h;
    var local := LocalActor(cm);
    var syncWith := settings.syncComponentsWith;
    var k := 0;
    while k < |order|
      invariant SweptTo(world', world, order, k)
      invariant QueuedTo(h', h, world, order, k, local, syncWith, uuid, toBytes)
    {
      var e := order[k];
      SweepStep(world', world, order, k);
      var s, h'' := SendObject(world'[e], h', local, syncWith, uuid, toBytes);
      QueueStep(h', h'', h, world, order, k, local, syncWith, uuid, toBytes);
      world', h' := world'[e := s], h'';
      k := k + 1;
    }
    assert order[..k] == order;
    SweepDone(world', world, order);
  }

  /** After visiting the first `k` objects of `order`, their updates have been queued. */
  ghost predicate QueuedTo<V>(cur: NetworkHandle, h: NetworkHandle, world: World<V>, order: seq<Entity>, k: nat,
                              local: Option<Actor>, syncWith: seq<NetworkTarget>, uuid: Uuid, toBytes: V -> Bytes) {
    && k <= |order|
    && (forall i :: 0 <= i < |order| ==> order[i] in world)
    && cur.spawnMessages == h.spawnMessages
    && cur.payloads == h.payloads + QueuedUpdates(world, order[..k], local, syncWith, uuid, toBytes)
  }

  lemma QueueStep<V>(cur: NetworkHandle, next: NetworkHandle, h: NetworkHandle, world: World<V>, order: seq<Entity>,
                     k: nat, local: Option<Actor>, syncWith: seq<NetworkTarget>, uuid: Uuid, toBytes: V -> Bytes)
    requires QueuedTo(cur, h, world, order, k, local, syncWith, uuid, toBytes) && k < |order|
    requires next.spawnMessages == cur.spawnMessages
    requires next.payloads == cur.payloads + UpdatesFor(world[order[k]], local, syncWith, uuid, toBytes)
    ensures QueuedTo(next, h, world, order, k + 1, local, syncWith, uuid, toBytes)
  {
    QueuedSnoc(world, order, k, local, syncWith, uuid, toBytes);
  }

  /** After visiting the first `k` objects of `order`, exactly those have their flag cleared. */
  ghost predicate SweptTo<V>(cur: World<V>, world: World<V>, order: seq<Entity>, k: nat) {
    && k <= |order|
    && cur.Keys == world.Keys
    && (forall i :: 0 <= i < |order| ==> order[i] in world)
    && (forall i :: 0 <= i < k ==> cur[order[i]] == Cleared(world)[order[i]])
    && (forall i :: k <= i < |order| ==> cur[order[i]] == world[order[i]])
  }

  lemma SweepStep<V>(cur: World<V>, world: World<V>, order: seq<Entity>, k: nat)
    requires Enumerates(order, world.Keys)
    requires SweptTo(cur, world, order, k) && k < |order|
    ensures cur[order[k]] == world[order[k]]
    ensures SweptTo(cur[order[k] := Cleared(world)[order[k]]], world, order, k + 1)
  {
  }

  lemma SweepDone<V>(cur: World<V>, world: World<V>, order: seq<Entity>)
    requires Enumerates(order, world.Keys)
    requires SweptTo(cur, world, order, |order|)
    ensures cur == Cleared(world)
  {
    forall e | e in world ensures cur[e] == Cleared(world)[e] {
      var i :| 0 <= i < |order| && order[i] == e;
    }
  }

  /** The body of the sending loop for one object: clear its flag and, when it was due
      and is owned by the local actor, queue its encoded value for every audience. */
  method SendObject<V>(s: Synced<V>, h: NetworkHandle, local: Option<Actor>, syncWith: seq<NetworkTarget>,
                       uuid: Uuid, toBytes: V -> Bytes) returns (s': Synced<V>, h': NetworkHandle)
    ensures s' == s.(sync := s.sync.(shouldSync := false))
    ensures h'.spawnMessages == h.spawnMessages
    ensures h'.payloads == h.payloads + UpdatesFor(s, local, syncWith, uuid, toBytes)
  {
    s' := s;
    h' := h;
    if s.sync.shouldSync {
      s' := s.(sync := s.sync.(shouldSync := false));
      if local.Some? {
        if TargetedBy(local.value, s.sync.ownership) {
          var bytes := toBytes(s.value);
          h' := SyncToTargets(h, syncWith, s.networkEntity, uuid, bytes);
        }
      }
    }
  }

  /** Extending the prefix of `order` by one object appends that object's updates. */
  lemma QueuedSnoc<V>(world: World<V>, order: seq<Entity>, k: nat, local: Option<Actor>, syncWith: seq<NetworkTarget>,
                      uuid: Uuid, toBytes: V -> Bytes)
    requires forall i :: 0 <= i < |order| ==> order[i] in world
    requires k < |order|
    ensures QueuedUpdates(world, order[..k + 1], local, syncWith, uuid, toBytes)
         == QueuedUpdates(world, order[..k], local, syncWith, uuid, toBytes)
            + UpdatesFor(world[order[k]], local, syncWith, uuid, toBytes)
  {
    QueuedAppend(world, order[..k], [order[k]], local, syncWith, uuid, toBytes);
    assert order[..k + 1] == order[..k] + [order[k]];
    assert QueuedUpdates(world, [order[k]], local, syncWith, uuid, toBytes)
        == UpdatesFor(world[order[k]], local, syncWith, uuid, toBytes) + [];
  }

  /** The updates of two lists of objects, one after the other. */
  lemma {:induction false} QueuedAppend<V>(world: World<V>, a: seq<Entity>, b: seq<Entity>, local: Option<Actor>,
                                           syncWith: seq<NetworkTarget>, uuid: Uuid, toBytes: V -> Bytes)
    requires forall i :: 0 <= i < |a| ==> a[i] in world
    requires forall i :: 0 <= i < |b| ==> b[i] in world
    ensures QueuedUpdates(world, a + b, local, syncWith, uuid, toBytes)
         == QueuedUpdates(world, a, local, syncWith, uuid, toBytes) + QueuedUpdates(world, b, local, syncWith, uuid, toBytes)
    decreases |a|
  {
    if a == [] {
      assert a + b == b;
    } else {
      assert (a + b)[0] == a[0] && (a + b)[1..] == a[1..] + b;
      QueuedAppend(world, a[1..], b, local, syncWith, uuid, toBytes);
    }
  }

  /** What is queued, independent of query order: an update `(t, ComponentUpdate(ne, u,
      d))` is queued exactly when some object with network id `ne` was due to be sent
      and is owned by the local actor, `t` is a configured audience, `u` is this
      attribute type and `d` the object's encoded value. */
  lemma {:induction false} QueuedMembers<V>(world: World<V>, order: seq<Entity>, local: Option<Actor>,
                                            syncWith: seq<NetworkTarget>, uuid: Uuid, toBytes: V -> Bytes,
                                            t: NetworkTarget, p: Payload)
    requires forall i :: 0 <= i < |order| ==> order[i] in world
    ensures (t, p) in QueuedUpdates(world, order, local, syncWith, uuid, toBytes) <==>
      exists i :: 0 <= i < |order| && Sends(world[order[i]], local, syncWith, uuid, toBytes, t, p)
    decreases |order|
  {
    if order != [] {
      QueuedMembers(world, order[1..], local, syncWith, uuid, toBytes, t, p);
      var s := world[order[0]];
      assert (t, p) in UpdatesFor(s, local, syncWith, uuid, toBytes) <==> Sends(s, local, syncWith, uuid, toBytes, t, p) by {
        if Sends(s, local, syncWith, uuid, toBytes, t, p) {
          var j :| 0 <= j < |syncWith| && syncWith[j] == t;
          assert UpdatesFor(s, local, syncWith, uuid, toBytes)[j] == (t, p);
        }
      }
      if exists i :: 0 <= i < |order| && Sends(world[order[i]], local, syncWith, uuid, toBytes, t, p) {
        var i :| 0 <= i < |order| && Sends(world[order[i]], local, syncWith, uuid, toBytes, t, p);
        if i > 0 {
          assert order[1..][i - 1] == order[i];
        }
      }
      if exists i :: 0 <= i < |order[1..]| && Sends(world[order[1..][i]], local, syncWith, uuid, toBytes, t, p) {
        var i :| 0 <= i < |order[1..]| && Sends(world[order[1..][i]], local, syncWith, uuid, toBytes, t, p);
        assert order[i + 1] == order[1..][i];
      }
    }
  }

  /** The object `s` gives rise to the queued entry `(t, p)`. */
  predicate Sends<V>(s: Synced<V>, local: Option<Actor>, syncWith: seq<NetworkTarget>, uuid: Uuid, toBytes: V -> Bytes,
                     t: NetworkTarget, p: Payload) {
    && s.sync.shouldSync && local.Some? && TargetedBy(local.value, s.sync.ownership)
    && t in syncWith
    && p == ComponentUpdate(s.networkEntity, uuid, toBytes(s.value))
  }

  /** Sending converges: once every flag is cleared, the next pass queues nothing. */
  lemma {:induction false} ClearedSendsNothing<V>(world: World<V>, order: seq<Entity>, local: Option<Actor>,
                                                  syncWith: seq<NetworkTarget>, uuid: Uuid, toBytes: V -> Bytes)
    requires forall i :: 0 <= i < |order| ==> order[i] in world
    ensures QueuedUpdates(Cleared(world), order, local, syncWith, uuid, toBytes) == []
    decreases |order|
  {
    if order != [] {
      ClearedSendsNothing(world, order[1..], local, syncWith, uuid, toBytes);
    }
  }

  /** Change-driven replication end to end: after the marking system, every changed
      object owned by the local actor is sent to every configured audience with its
      current value. */
  lemma MarkThenSend<V>(world: World<V>, changed: set<Entity>, order: seq<Entity>, local: Option<Actor>,
                        syncWith: seq<NetworkTarget>, uuid: Uuid, toBytes: V -> Bytes, e: Entity, t: NetworkTarget)
    requires Enumerates(order, world.Keys)
    requires e in world && e in changed && local.Some? && TargetedBy(local.value, world[e].sync.ownership)
    requires t in syncWith
    ensures (t, ComponentUpdate(world[e].networkEntity, uuid, toBytes(world[e].value)))
            in QueuedUpdates(MarkingSystem(world, changed), order, local, syncWith, uuid, toBytes)
  {
    var marked := MarkingSystem(world, changed);
    var p := ComponentUpdate(world[e].networkEntity, uuid, toBytes(world[e].value));
    QueuedMembers(marked, order, local, syncWith, uuid, toBytes, t, p);
    var i :| 0 <= i < |order| && order[i] == e;
    assert Sends(marked[order[i]], local, syncWith, uuid, toBytes, t, p);
  }

  /** A new peer gets the full state: after a tick with a `Connected` event, every object
      owned by the local actor is sent to every configured audience with its current value. */
  lemma ConnectThenSend<V>(world: World<V>, events: seq<ConnectionEvent>, c: nat, order: seq<Entity>,
                           local: Option<Actor>, syncWith: seq<NetworkTarget>, uuid: Uuid, toBytes: V -> Bytes,
                           e: Entity, t: NetworkTarget)
    requires Enumerates(order, world.Keys)
    requires c < |events| && events[c].Connected?
    requires e in world && local.Some? && TargetedBy(local.value, world[e].sync.ownership)
    requires t in syncWith
    ensures (t, ComponentUpdate(world[e].networkEntity, uuid, toBytes(world[e].value)))
            in QueuedUpdates(ConnectSystem(world, events), order, local, syncWith, uuid, toBytes)
  {
    var connected := ConnectSystem(world, events);
    var p := ComponentUpdate(world[e].networkEntity, uuid, toBytes(world[e].value));
    QueuedMembers(connected, order, local, syncWith, uuid, toBytes, t, p);
    var i :| 0 <= i < |order| && order[i] == e;
    assert Sends(connected[order[i]], local, syncWith, uuid, toBytes, t, p);
  }
}
