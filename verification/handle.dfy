/** `NetworkHandle` (message.rs): the outgoing payload queue the game writes to, and the
    queue of spawn requests that become `Spawn` payloads with fresh network ids. */
module Handles {
  import opened Addressing
  import opened Messages
  import opened Connections
  import opened Registry
  import opened Spawning

  datatype NetworkHandle = NetworkHandle(
    payloads: seq<(NetworkTarget, Payload)>,
    spawnMessages: seq<(NetworkTarget, Bytes)>)

  /** `NetworkHandle::new`. */
  function NewHandle(): (h: NetworkHandle)
    ensures h.payloads == [] && h.spawnMessages == []
  {
    NetworkHandle([], [])
  }

  /** `spawn`: queue one spawn request; `data` is the serialised spawnable. */
  function RequestSpawn(h: NetworkHandle, target: NetworkTarget, data: Bytes): (r: NetworkHandle)
    ensures r.payloads == h.payloads
    ensures |r.spawnMessages| == |h.spawnMessages| + 1
    ensures r.spawnMessages[..|h.spawnMessages|] == h.spawnMessages
    ensures r.spawnMessages[|h.spawnMessages|] == (target, data)
  {
    h.(spawnMessages := h.spawnMessages + [(target, data)])
  }

  /** `add_payload`: append at the end of the queue. */
  function AddPayload(h: NetworkHandle, target: NetworkTarget, payload: Payload): (r: NetworkHandle)
    ensures r.spawnMessages == h.spawnMessages
    ensures |r.payloads| == |h.payloads| + 1
    ensures r.payloads[..|h.payloads|] == h.payloads
    ensures r.payloads[|h.payloads|] == (target, payload)
  {
    h.(payloads := h.payloads + [(target, payload)])
  }

  /** `sync_component`: queue one `ComponentUpdate` carrying the given target, entity,
      type uuid and bytes. */
  function SyncComponent(h: NetworkHandle, target: NetworkTarget, targetEntity: NetworkEntity,
                         uuid: Uuid, data: Bytes): (r: NetworkHandle)
    ensures r.spawnMessages == h.spawnMessages
    ensures |r.payloads| == |h.payloads| + 1
    ensures r.payloads[..|h.payloads|] == h.payloads
    ensures r.payloads[|h.payloads|] == (target, ComponentUpdate(targetEntity, uuid, data))
  {
    AddPayload(h, target, ComponentUpdate(targetEntity, uuid, data))
  }

  /** `clear_payloads`: hand back the queue, in order, and leave it empty. */
  function ClearPayloads(h: NetworkHandle): (r: (NetworkHandle, seq<(NetworkTarget, Payload)>))
    ensures r.0.payloads == [] && r.0.spawnMessages == h.spawnMessages
    ensures r.1 == h.payloads
  {
    (h.(payloads := []), h.payloads)
  }

  /** Whatever was added since the last clear comes back from the next clear, oldest
      first. */
  lemma {:induction false} AddsThenClear(h: NetworkHandle, added: seq<(NetworkTarget, Payload)>)
    ensures ClearPayloads(AddAll(h, added)).1 == h.payloads + added
    ensures ClearPayloads(AddAll(h, added)).0 == h.(payloads := [])
    decreases |added|
  {
    if added != [] {
      var last := added[|added| - 1];
      AddsThenClear(h, added[..|added| - 1]);
      assert added == added[..|added| - 1] + [last];
    }
  }

  /** `add_payload` applied to each entry of `added` in turn. */
  function AddAll(h: NetworkHandle, added: seq<(NetworkTarget, Payload)>): (r: NetworkHandle)
    decreases |added|
  {
    if added == [] then h
    else
      var last := added[|added| - 1];
      AddPayload(AddAll(h, added[..|added| - 1]), last.0, last.1)
  }

  /* ---------------- converting spawn requests ---------------- */

  /** Confirm one object on each connection of `conns`, in turn (the inner loop of
      `convert_spawn_messages`). */
  function ConfirmEach(sm: SpawnManager, conns: seq<ConnectionId>, ne: NetworkEntity): (r: SpawnManager)
    ensures r.spawnables == sm.spawnables
    ensures forall c: ConnectionId :: c in r.delivered <==> c in sm.delivered || c in conns
    ensures forall c: ConnectionId, x: NetworkEntity :: x in Tracked(r, c) <==> x in Tracked(sm, c) || (x == ne && c in conns)
    decreases |conns|
  {
    if conns == [] then sm
    else
      MemberSplit(conns);
      ConfirmEach(ConfirmSpawn(sm, conns[0], ne), conns[1..], ne)
  }

  /** The set of connections an object is confirmed on, independent of iteration order:
      every connection of `cs` holds the object and nothing else changes. */
  function ConfirmAll(sm: SpawnManager, cs: set<ConnectionId>, ne: NetworkEntity): (r: SpawnManager)
    ensures r.spawnables == sm.spawnables
    ensures r.delivered.Keys == sm.delivered.Keys + cs
    ensures forall c: ConnectionId, x: NetworkEntity :: x in Tracked(r, c) <==> x in Tracked(sm, c) || (x == ne && c in cs)
  {
    sm.(delivered := map c | c in sm.delivered.Keys + cs :: if c in cs then Tracked(sm, c) + {ne} else Tracked(sm, c))
  }

  /** Confirming in any order that lists the targeted set gives the same manager. */
  lemma ConfirmOrderIrrelevant(sm: SpawnManager, conns: seq<ConnectionId>, cs: set<ConnectionId>, ne: NetworkEntity)
    requires Enumerates(conns, cs)
    ensures ConfirmEach(sm, conns, ne) == ConfirmAll(sm, cs, ne)
  {
    var a := ConfirmEach(sm, conns, ne);
    var b := ConfirmAll(sm, cs, ne);
    assert a.delivered.Keys == b.delivered.Keys;
    SameTracking(a, b);
  }

  /** One request converted: it takes the registry's next id, is registered with its
      target and `Spawn` payload, is confirmed on every connection its target resolves
      to now, and yields the entry queued to the original target. */
  function ConvertOne(request: (NetworkTarget, Bytes), reg: NetworkEntityRegistry, sm: SpawnManager, cm: ConnectionManager):
    (r: ((NetworkTarget, Payload), NetworkEntityRegistry, SpawnManager))
    ensures r.0 == (request.0, Spawn(reg.next, request.1))
    ensures r.1.entities == reg.entities && r.1.next == reg.next + 1
    ensures r.2.spawnables == sm.spawnables[reg.next := (request.0, Spawn(reg.next, request.1))]
  {
    var (target, data) := request;
    var (ne, reg1) := Generate(reg);
    var payload := Spawn(ne, data);
    ((target, payload), reg1, ConfirmAll(RegisterSpawn(sm, ne, target, payload), TargetedConnectionIds(cm, target), ne))
  }

  /** A converted request is confirmed on exactly the connections its target resolves to. */
  lemma ConvertOneConfirms(request: (NetworkTarget, Bytes), reg: NetworkEntityRegistry, sm: SpawnManager, cm: ConnectionManager)
    ensures forall c: ConnectionId, x: NetworkEntity :: x in Tracked(ConvertOne(request, reg, sm, cm).2, c) <==>
      x in Tracked(sm, c) || (x == reg.next && c in TargetedConnectionIds(cm, request.0))
  {
  }

  /** The loop of `convert_spawn_messages` over the drained requests, in order; returns
      the entries it queues, the registry and the spawn manager. */
  function ConvertLoop(pending: seq<(NetworkTarget, Bytes)>, reg: NetworkEntityRegistry, sm: SpawnManager, cm: ConnectionManager):
    (r: (seq<(NetworkTarget, Payload)>, NetworkEntityRegistry, SpawnManager))
    ensures |r.0| == |pending|
    ensures r.1.entities == reg.entities && r.1.next == reg.next + |pending|
    decreases |pending|
  {
    if pending == [] then ([], reg, sm)
    else
      var first := ConvertOne(pending[0], reg, sm, cm);
      var rest := ConvertLoop(pending[1..], first.1, first.2, cm);
      ([first.0] + rest.0, rest.1, rest.2)
  }

  /** The `Spawn` entries that converting `pending` queues when the counter starts at
      `base`: one per request, in request order, with consecutive ids. */
  function Spawned(pending: seq<(NetworkTarget, Bytes)>, base: NetworkEntity): (r: seq<(NetworkTarget, Payload)>)
    ensures |r| == |pending|
    ensures forall i :: 0 <= i < |pending| ==> r[i] == (pending[i].0, Spawn(base + i, pending[i].1))
    decreases |pending|
  {
    if pending == [] then []
    else [(pending[0].0, Spawn(base, pending[0].1))] + Spawned(pending[1..], base + 1)
  }

  /** The objects that converting `pending` registers when the counter starts at `base`:
      ids `base` up to `base + |pending|`, each with its request's target and payload. */
  function NewSpawnables(pending: seq<(NetworkTarget, Bytes)>, base: NetworkEntity): (r: map<NetworkEntity, (NetworkTarget, Payload)>)
    ensures forall x: NetworkEntity :: x in r <==> base <= x < base + |pending|
    ensures forall i :: 0 <= i < |pending| ==> r[base + i] == (pending[i].0, Spawn(base + i, pending[i].1))
    decreases |pending|
  {
    if pending == [] then map[]
    else
      var rest := NewSpawnables(pending[1..], base + 1);
      rest[base := (pending[0].0, Spawn(base, pending[0].1))]
  }

  /** The loop queues exactly `Spawned`. */
  lemma {:induction false} ConvertQueued(pending: seq<(NetworkTarget, Bytes)>,
                                         reg: NetworkEntityRegistry, sm: SpawnManager, cm: ConnectionManager)
    ensures ConvertLoop(pending, reg, sm, cm).0 == Spawned(pending, reg.next)
    decreases |pending|
  {
    if pending != [] {
      ConvertQueued(pending[1..], ConvertOne(pending[0], reg, sm, cm).1, ConvertOne(pending[0], reg, sm, cm).2, cm);
      QueuedStep(pending, reg, sm, cm);
    }
  }

  /** The step of `ConvertQueued`: the first entry, then the rest's. */
  lemma QueuedStep(pending: seq<(NetworkTarget, Bytes)>, reg: NetworkEntityRegistry, sm: SpawnManager, cm: ConnectionManager)
    requires pending != []
    requires ConvertLoop(pending[1..], ConvertOne(pending[0], reg, sm, cm).1, ConvertOne(pending[0], reg, sm, cm).2, cm).0
             == Spawned(pending[1..], ConvertOne(pending[0], reg, sm, cm).1.next)
    ensures ConvertLoop(pending, reg, sm, cm).0 == Spawned(pending, reg.next)
  {
    var first := ConvertOne(pending[0], reg, sm, cm);
    SpawnedUnfold(pending, reg.next, first.1.next);
    LoopUnfold(pending, reg, sm, cm);
  }

  /** `Spawned` unfolded once. */
  lemma SpawnedUnfold(pending: seq<(NetworkTarget, Bytes)>, base: NetworkEntity, next: NetworkEntity)
    requires pending != [] && next == base + 1
    ensures Spawned(pending, base) == [(pending[0].0, Spawn(base, pending[0].1))] + Spawned(pending[1..], next)
  {
  }

  /** The loop registers exactly `NewSpawnables` over the objects it started with. */
  lemma {:induction false} ConvertRegistered(pending: seq<(NetworkTarget, Bytes)>,
                                             reg: NetworkEntityRegistry, sm: SpawnManager, cm: ConnectionManager)
    ensures ConvertLoop(pending, reg, sm, cm).2.spawnables == sm.spawnables + NewSpawnables(pending, reg.next)
    decreases |pending|
  {
    if pending != [] {
      ConvertRegistered(pending[1..], ConvertOne(pending[0], reg, sm, cm).1, ConvertOne(pending[0], reg, sm, cm).2, cm);
      RegisteredStep(pending, reg, sm, cm);
    }
  }

  /** Updating a key before merging a map without it equals merging the updated map. */
  lemma MergeUpdate<K, V>(m: map<K, V>, rest: map<K, V>, k: K, v: V)
    requires k !in rest
    ensures m[k := v] + rest == m + rest[k := v]
  {
  }

  /** The step of `ConvertRegistered`: the first registration, then the rest's. */
  lemma RegisteredStep(pending: seq<(NetworkTarget, Bytes)>, reg: NetworkEntityRegistry, sm: SpawnManager, cm: ConnectionManager)
    requires pending != []
    requires ConvertLoop(pending[1..], ConvertOne(pending[0], reg, sm, cm).1, ConvertOne(pending[0], reg, sm, cm).2, cm).2.spawnables
             == ConvertOne(pending[0], reg, sm, cm).2.spawnables + NewSpawnables(pending[1..], ConvertOne(pending[0], reg, sm, cm).1.next)
    ensures ConvertLoop(pending, reg, sm, cm).2.spawnables == sm.spawnables + NewSpawnables(pending, reg.next)
  {
    var first := ConvertOne(pending[0], reg, sm, cm);
    LoopUnfold(pending, reg, sm, cm);
    SpawnablesUnfold(pending, reg.next, first.1.next);
    MergeUpdate(sm.spawnables, NewSpawnables(pending[1..], first.1.next), reg.next, (pending[0].0, Spawn(reg.next, pending[0].1)));
  }

  /** `after` tracks what `before` tracks plus each of `news` on exactly the connections
      its target resolves to. */
  ghost predicate ConfirmedOn(cm: ConnectionManager, after: SpawnManager, before: SpawnManager,
                        news: map<NetworkEntity, (NetworkTarget, Payload)>)
  {
    forall c: ConnectionId, x: NetworkEntity :: x in Tracked(after, c) <==>
      x in Tracked(before, c) || (x in news && c in TargetedConnectionIds(cm, news[x].0))
  }

  /** `ConfirmedOn` at one connection and one object. */
  lemma ConfirmedAt(cm: ConnectionManager, after: SpawnManager, before: SpawnManager,
                    news: map<NetworkEntity, (NetworkTarget, Payload)>, c: ConnectionId, x: NetworkEntity)
    requires ConfirmedOn(cm, after, before, news)
    ensures x in Tracked(after, c) <==> x in Tracked(before, c) || (x in news && c in TargetedConnectionIds(cm, news[x].0))
  {
    if x in news {
      assert x in Tracked(after, c) <==> x in Tracked(before, c) || c in TargetedConnectionIds(cm, news[x].0);
    } else {
      assert x in Tracked(after, c) <==> x in Tracked(before, c);
    }
  }

  /** The loop confirms each new object on exactly the connections its target resolves
      to, and nothing else. */
  lemma {:induction false} ConvertConfirmed(pending: seq<(NetworkTarget, Bytes)>,
                                            reg: NetworkEntityRegistry, sm: SpawnManager, cm: ConnectionManager)
    ensures ConfirmedOn(cm, ConvertLoop(pending, reg, sm, cm).2, sm, NewSpawnables(pending, reg.next))
    decreases |pending|
  {
    if pending != [] {
      var first := ConvertOne(pending[0], reg, sm, cm);
      ConvertConfirmed(pending[1..], first.1, first.2, cm);
      ConvertOneConfirms(pending[0], reg, sm, cm);
      LoopUnfold(pending, reg, sm, cm);
      SpawnablesUnfold(pending, reg.next, first.1.next);
      TrackingCompose(cm, sm, first.2, ConvertLoop(pending[1..], first.1, first.2, cm).2, ConvertLoop(pending, reg, sm, cm).2,
                      NewSpawnables(pending[1..], first.1.next), NewSpawnables(pending, reg.next),
                      reg.next, (pending[0].0, Spawn(reg.next, pending[0].1)));
    }
  }

  /** `ConvertLoop` unfolded once. */
  lemma LoopUnfold(pending: seq<(NetworkTarget, Bytes)>, reg: NetworkEntityRegistry, sm: SpawnManager, cm: ConnectionManager)
    requires pending != []
    ensures ConvertLoop(pending, reg, sm, cm).0
            == [ConvertOne(pending[0], reg, sm, cm).0]
               + ConvertLoop(pending[1..], ConvertOne(pending[0], reg, sm, cm).1, ConvertOne(pending[0], reg, sm, cm).2, cm).0
    ensures ConvertLoop(pending, reg, sm, cm).2
            == ConvertLoop(pending[1..], ConvertOne(pending[0], reg, sm, cm).1, ConvertOne(pending[0], reg, sm, cm).2, cm).2
  {
  }

  /** `NewSpawnables` unfolded once: the first id is fresh for the rest. */
  lemma SpawnablesUnfold(pending: seq<(NetworkTarget, Bytes)>, base: NetworkEntity, next: NetworkEntity)
    requires pending != [] && next == base + 1
    ensures base !in NewSpawnables(pending[1..], next)
    ensures NewSpawnables(pending, base) == NewSpawnables(pending[1..], next)[base := (pending[0].0, Spawn(base, pending[0].1))]
  {
  }

  /** Confirming one new object and then a batch of others tracks the union of the two. */
  lemma TrackingCompose(cm: ConnectionManager, sm: SpawnManager, mid: SpawnManager, after: SpawnManager, final: SpawnManager,
                        rest: map<NetworkEntity, (NetworkTarget, Payload)>, all: map<NetworkEntity, (NetworkTarget, Payload)>,
                        k: NetworkEntity, v: (NetworkTarget, Payload))
    requires k !in rest && all == rest[k := v] && final == after
    requires forall c: ConnectionId, x: NetworkEntity :: x in Tracked(mid, c) <==>
      x in Tracked(sm, c) || (x == k && c in TargetedConnectionIds(cm, v.0))
    requires ConfirmedOn(cm, after, mid, rest)
    ensures ConfirmedOn(cm, final, sm, all)
  {
  }

  /** `convert_spawn_messages`: drain the spawn requests and convert each in turn. */
  function ConvertSpawnMessages(h: NetworkHandle, reg: NetworkEntityRegistry, sm: SpawnManager, cm: ConnectionManager):
    (r: (NetworkHandle, NetworkEntityRegistry, SpawnManager))
    ensures r.0.spawnMessages == []
    ensures r.0.payloads == h.payloads + Spawned(h.spawnMessages, reg.next)
    ensures r.1.entities == reg.entities && r.1.next == reg.next + |h.spawnMessages|
    ensures Inv(reg) ==> Inv(r.1) && forall x: NetworkEntity :: x in NewSpawnables(h.spawnMessages, reg.next) ==> x !in reg.entities
    ensures r.2.spawnables == sm.spawnables + NewSpawnables(h.spawnMessages, reg.next)
  {
    ConvertQueued(h.spawnMessages, reg, sm, cm);
    ConvertRegistered(h.spawnMessages, reg, sm, cm);
    var converted := ConvertLoop(h.spawnMessages, reg, sm, cm);
    (NetworkHandle(h.payloads + converted.0, []), converted.1, converted.2)
  }

  /** Conversion confirms each new object on exactly the connections its target resolves
      to now, so detection later finds nothing to resend to them. */
  lemma ConvertConfirms(h: NetworkHandle, reg: NetworkEntityRegistry, sm: SpawnManager, cm: ConnectionManager)
    ensures ConfirmedOn(cm, ConvertSpawnMessages(h, reg, sm, cm).2, sm, NewSpawnables(h.spawnMessages, reg.next))
  {
    ConvertConfirmed(h.spawnMessages, reg, sm, cm);
  }
}
