/** Spawn tracking (spawnable.rs): which objects exist with which audience, which
    connections already hold a copy, the per-tick detection that fills the gaps, and the
    receiving side that registers spawned objects. */
module Spawning {
  import opened Addressing
  import opened Messages
  import opened Connections
  import opened Registry

  /** `SpawnManager`: each object's audience and spawn payload, and per connection the
      set of objects it has been sent. */
  datatype SpawnManager = SpawnManager(
    spawnables: map<NetworkEntity, (NetworkTarget, Payload)>,
    delivered: Delivered)

  /** Per-connection delivered sets. */
  type Delivered = map<ConnectionId, set<NetworkEntity>>

  /** An untracked connection counts as holding nothing. */
  function Held(delivered: Delivered, c: ConnectionId): set<NetworkEntity> {
    if c in delivered then delivered[c] else {}
  }

  /** What the manager records connection `c` as holding. */
  function Tracked(sm: SpawnManager, c: ConnectionId): set<NetworkEntity> {
    Held(sm.delivered, c)
  }

  /** `SpawnManager::new`. */
  function NewSpawnManager(): (sm: SpawnManager)
    ensures sm.spawnables == map[] && sm.delivered == map[]
  {
    SpawnManager(map[], map[])
  }

  /** `register_spawn`: record, or replace, the audience and payload of one object. */
  function RegisterSpawn(sm: SpawnManager, ne: NetworkEntity, target: NetworkTarget, payload: Payload): (r: SpawnManager)
    ensures r.spawnables.Keys == sm.spawnables.Keys + {ne} && r.spawnables[ne] == (target, payload)
    ensures forall other :: other in sm.spawnables && other != ne ==> r.spawnables[other] == sm.spawnables[other]
    ensures r.delivered == sm.delivered
  {
    sm.(spawnables := sm.spawnables[ne := (target, payload)])
  }

  /** `confirm_spawn`: add the object to the connection's delivered set, creating the
      set if the connection was untracked. */
  function ConfirmSpawn(sm: SpawnManager, c: ConnectionId, ne: NetworkEntity): (r: SpawnManager)
    ensures r.spawnables == sm.spawnables
    ensures r.delivered.Keys == sm.delivered.Keys + {c}
    ensures Tracked(r, c) == Tracked(sm, c) + {ne}
    ensures forall d :: d != c ==> Tracked(r, d) == Tracked(sm, d)
  {
    sm.(delivered := sm.delivered[c := Tracked(sm, c) + {ne}])
  }

  /** The entries of `order` whose id is not in `spawned`, in order. */
  function Missing(sm: SpawnManager, spawned: set<NetworkEntity>, order: seq<NetworkEntity>):
    (r: seq<(NetworkEntity, NetworkTarget, Payload)>)
    requires forall i :: 0 <= i < |order| ==> order[i] in sm.spawnables
    ensures forall k :: 0 <= k < |r| ==>
      r[k].0 in order && r[k].0 !in spawned && (r[k].1, r[k].2) == sm.spawnables[r[k].0]
  {
    if order == [] then []
    else
      var ne := order[0];
      var rest := Missing(sm, spawned, order[1..]);
      if ne !in spawned then [(ne, sm.spawnables[ne].0, sm.spawnables[ne].1)] + rest else rest
  }

  /** Some entry of `listing` is for the object `ne`. */
  predicate Reports(listing: seq<(NetworkEntity, NetworkTarget, Payload)>, ne: NetworkEntity) {
    exists k :: 0 <= k < |listing| && listing[k].0 == ne
  }

  /** An id of `order` outside `spawned` is reported. */
  lemma {:induction false} MissingHas(sm: SpawnManager, spawned: set<NetworkEntity>, order: seq<NetworkEntity>, ne: NetworkEntity)
    requires forall i :: 0 <= i < |order| ==> order[i] in sm.spawnables
    requires ne in order && ne !in spawned
    ensures Reports(Missing(sm, spawned, order), ne)
  {
    var r := Missing(sm, spawned, order);
    if order[0] == ne {
      assert r[0].0 == ne;
    } else {
      var i :| 0 <= i < |order| && order[i] == ne;
      assert order[1..][i - 1] == ne;
      MissingHas(sm, spawned, order[1..], ne);
      var rest := Missing(sm, spawned, order[1..]);
      var k :| 0 <= k < |rest| && rest[k].0 == ne;
      if order[0] !in spawned {
        assert r[k + 1] == rest[k];
      } else {
        assert r == rest;
      }
    }
  }

  /** Every id of `order` outside `spawned` is reported. */
  lemma MissingComplete(sm: SpawnManager, spawned: set<NetworkEntity>, order: seq<NetworkEntity>)
    requires forall i :: 0 <= i < |order| ==> order[i] in sm.spawnables
    ensures forall ne: NetworkEntity :: ne in order && ne !in spawned ==> Reports(Missing(sm, spawned, order), ne)
  {
    forall ne: NetworkEntity | ne in order && ne !in spawned
      ensures Reports(Missing(sm, spawned, order), ne)
    {
      MissingHas(sm, spawned, order, ne);
    }
  }

  /** Filtering keeps each id at most once when `order` has no repeats. */
  lemma {:induction false} MissingDistinct(sm: SpawnManager, spawned: set<NetworkEntity>, order: seq<NetworkEntity>)
    requires forall i :: 0 <= i < |order| ==> order[i] in sm.spawnables
    requires forall i, j :: 0 <= i < j < |order| ==> order[i] != order[j]
    ensures forall k, l :: 0 <= k < l < |Missing(sm, spawned, order)| ==>
      Missing(sm, spawned, order)[k].0 != Missing(sm, spawned, order)[l].0
  {
    if order != [] {
      MissingDistinct(sm, spawned, order[1..]);
      var r := Missing(sm, spawned, order);
      var rest := Missing(sm, spawned, order[1..]);
      forall k | 0 <= k < |rest| ensures rest[k].0 != order[0] {
        var i :| 0 <= i < |order[1..]| && order[1..][i] == rest[k].0;
        assert order[i + 1] == rest[k].0;
      }
      if order[0] !in spawned {
        assert r == [(order[0], sm.spawnables[order[0]].0, sm.spawnables[order[0]].1)] + rest;
        forall k, l | 0 <= k < l < |r| ensures r[k].0 != r[l].0 {
          assert r[l] == rest[l - 1];
          if k > 0 {
            assert r[k] == rest[k - 1];
          }
        }
      }
    }
  }

  /** `get_not_spawned`: nothing for an untracked connection; otherwise each registered
      object the connection does not hold, once, with its audience and payload. */
  function GetNotSpawned(sm: SpawnManager, c: ConnectionId, order: seq<NetworkEntity>):
    (r: seq<(NetworkEntity, NetworkTarget, Payload)>)
    requires Enumerates(order, sm.spawnables.Keys)
    ensures c !in sm.delivered ==> r == []
    ensures c in sm.delivered ==> forall ne: NetworkEntity ::
      Reports(r, ne) <==> ne in sm.spawnables && ne !in sm.delivered[c]
    ensures forall k :: 0 <= k < |r| ==> r[k].0 in sm.spawnables && (r[k].1, r[k].2) == sm.spawnables[r[k].0]
    ensures forall k, l :: 0 <= k < l < |r| ==> r[k].0 != r[l].0
  {
    if c in sm.delivered then
      MissingDistinct(sm, sm.delivered[c], order);
      MissingComplete(sm, sm.delivered[c], order);
      Missing(sm, sm.delivered[c], order)
    else []
  }

  /* ---------------- spawn detection ---------------- */

  /** First phase of `spawn_detection_system`: give every live connection a tracking
      entry, keeping existing entries as they are. */
  function TrackConnections(cm: ConnectionManager, sm: SpawnManager): (r: SpawnManager)
    ensures r.spawnables == sm.spawnables
    ensures r.delivered.Keys == sm.delivered.Keys + cm.connections.Keys
    ensures forall c :: Tracked(r, c) == Tracked(sm, c)
  {
    sm.(delivered := map c | c in sm.delivered.Keys + cm.connections.Keys :: Tracked(sm, c))
  }

  /** Connection `c` is in the audience of object `ne`. */
  predicate Audience(cm: ConnectionManager, spawnables: map<NetworkEntity, (NetworkTarget, Payload)>,
                     ne: NetworkEntity, c: ConnectionId)
    requires ne in spawnables
  {
    c in TargetedConnectionIds(cm, spawnables[ne].0)
  }

  /** Every connection an object's target resolves to is live: exactly when neither
      `get_actor(connection_id).unwrap()` nor the tracked-set `unwrap` of
      `spawn_detection_system` panics. */
  ghost predicate AudiencesLive(cm: ConnectionManager, spawnables: map<NetworkEntity, (NetworkTarget, Payload)>) {
    forall ne: NetworkEntity, c: ConnectionId :: ne in spawnables && Audience(cm, spawnables, ne, c) ==> c in cm.connections
  }

  /** When every index entry names a live connection, every audience member is a live
      connection, whatever the objects and their targets. */
  lemma AudienceLive(cm: ConnectionManager, spawnables: map<NetworkEntity, (NetworkTarget, Payload)>)
    requires IndexLive(cm)
    ensures AudiencesLive(cm, spawnables)
  {
  }

  /** Membership in a non-empty sequence splits into its head and its tail. */
  lemma MemberSplit<T>(s: seq<T>)
    requires |s| > 0
    ensures forall x: T :: x in s <==> x == s[0] || x in s[1..]
  {
    forall x: T | x in s && x != s[0] ensures x in s[1..] {
      var i :| 0 <= i < |s| && s[i] == x;
      assert s[1..][i - 1] == x;
    }
  }

  /** What one object's pass achieves: the same connections are tracked, `ne` is added
      exactly on the listed connections of its audience, and the log names, once each,
      the connections of the audience that lacked it. */
  ghost predicate PassedFor(cm: ConnectionManager, spawnables: map<NetworkEntity, (NetworkTarget, Payload)>,
                            ne: NetworkEntity, delivered: Delivered, conns: seq<ConnectionId>,
                            r: (Delivered, seq<(NetworkEntity, ConnectionId)>))
    requires ne in spawnables
  {
    && r.0.Keys == delivered.Keys
    && (forall c: ConnectionId, x: NetworkEntity :: x in Held(r.0, c) <==>
          x in Held(delivered, c) || (x == ne && c in conns && Audience(cm, spawnables, ne, c)))
    && (forall k :: 0 <= k < |r.1| ==> r.1[k].0 == ne)
    && (forall c: ConnectionId :: (ne, c) in r.1 <==>
          c in conns && Audience(cm, spawnables, ne, c) && ne !in Held(delivered, c))
    && (forall k, l :: 0 <= k < l < |r.1| ==> r.1[k] != r.1[l])
  }

  /** What the passes over the objects of `order` achieve: the same connections are
      tracked, each object is added exactly on the listed connections of its audience,
      and the log names, once each, the (object, connection) pairs that were missing. */
  ghost predicate PassedAll(cm: ConnectionManager, spawnables: map<NetworkEntity, (NetworkTarget, Payload)>,
                            delivered: Delivered, order: seq<NetworkEntity>, conns: seq<ConnectionId>,
                            r: (Delivered, seq<(NetworkEntity, ConnectionId)>))
  {
    && r.0.Keys == delivered.Keys
    && AddedOn(cm, spawnables, delivered, order, conns, r.0)
    && LogsMissing(cm, spawnables, delivered, order, conns, r.1)
    && (forall k, l :: 0 <= k < l < |r.1| ==> r.1[k] != r.1[l])
  }

  /** `held` is `delivered` with each object of `order` added on the listed connections
      of its audience. */
  ghost predicate AddedOn(cm: ConnectionManager, spawnables: map<NetworkEntity, (NetworkTarget, Payload)>,
                          delivered: Delivered, order: seq<NetworkEntity>, conns: seq<ConnectionId>, held: Delivered)
  {
    forall c: ConnectionId, x: NetworkEntity :: x in Held(held, c) <==>
      x in Held(delivered, c) || (x in order && x in spawnables && c in conns && Audience(cm, spawnables, x, c))
  }

  /** `log` names the (object, connection) pairs of `order` and `conns` where the
      connection is in the object's audience and lacks it in `delivered`. */
  ghost predicate LogsMissing(cm: ConnectionManager, spawnables: map<NetworkEntity, (NetworkTarget, Payload)>,
                              delivered: Delivered, order: seq<NetworkEntity>, conns: seq<ConnectionId>,
                              log: seq<(NetworkEntity, ConnectionId)>)
  {
    forall x: NetworkEntity, c: ConnectionId :: (x, c) in log <==>
      x in order && x in spawnables && c in conns && Audience(cm, spawnables, x, c) && x !in Held(delivered, c)
  }

  /** Inner loop of detection for one object: each targeted connection that lacks it is
      marked as holding it and logged as an (object, connection) pair. */
  function DetectFor(cm: ConnectionManager, spawnables: map<NetworkEntity, (NetworkTarget, Payload)>,
                     ne: NetworkEntity, delivered: Delivered, conns: seq<ConnectionId>):
    (r: (Delivered, seq<(NetworkEntity, ConnectionId)>))
    requires ne in spawnables
    requires forall c: ConnectionId :: c in conns ==> c in delivered
    requires forall i, j :: 0 <= i < j < |conns| ==> conns[i] != conns[j]
    ensures PassedFor(cm, spawnables, ne, delivered, conns, r)
    decreases |conns|
  {
    if conns == [] then (delivered, [])
    else
      var c := conns[0];
      var fill := Audience(cm, spawnables, ne, c) && ne !in delivered[c];
      var delivered1 := if fill then delivered[c := delivered[c] + {ne}] else delivered;
      var log1 := if fill then [(ne, c)] else [];
      ConnsTail(conns, delivered);
      var rest := DetectFor(cm, spawnables, ne, delivered1, conns[1..]);
      DetectForStep(cm, spawnables, ne, delivered, conns, rest);
      (rest.0, log1 + rest.1)
  }

  /** The tail of a repeat-free list of tracked connections is one too, without its head. */
  lemma ConnsTail(conns: seq<ConnectionId>, delivered: Delivered)
    requires |conns| > 0
    requires forall c: ConnectionId :: c in conns ==> c in delivered
    requires forall i, j :: 0 <= i < j < |conns| ==> conns[i] != conns[j]
    ensures forall c: ConnectionId :: c in conns[1..] ==> c in delivered
    ensures forall i, j :: 0 <= i < j < |conns[1..]| ==> conns[1..][i] != conns[1..][j]
    ensures conns[0] !in conns[1..]
  {
    MemberSplit(conns);
    assert forall i :: 0 <= i < |conns[1..]| ==> conns[1..][i] != conns[0];
  }

  /** The step of `DetectFor`: deciding the first connection, then the rest. */
  lemma DetectForStep(cm: ConnectionManager, spawnables: map<NetworkEntity, (NetworkTarget, Payload)>,
                      ne: NetworkEntity, delivered: Delivered, conns: seq<ConnectionId>,
                      rest: (Delivered, seq<(NetworkEntity, ConnectionId)>))
    requires ne in spawnables && |conns| > 0 && conns[0] in delivered && conns[0] !in conns[1..]
    requires PassedFor(cm, spawnables, ne,
                       if Audience(cm, spawnables, ne, conns[0]) && ne !in delivered[conns[0]]
                       then delivered[conns[0] := delivered[conns[0]] + {ne}] else delivered,
                       conns[1..], rest)
    ensures PassedFor(cm, spawnables, ne, delivered, conns,
                      (rest.0, (if Audience(cm, spawnables, ne, conns[0]) && ne !in delivered[conns[0]]
                                then [(ne, conns[0])] else []) + rest.1))
  {
    MemberSplit(conns);
    assert forall k :: 0 <= k < |rest.1| ==> rest.1[k] in rest.1;
  }

  /** Outer loop of detection over the objects in `order`. */
  function DetectAll(cm: ConnectionManager, spawnables: map<NetworkEntity, (NetworkTarget, Payload)>,
                     delivered: Delivered, order: seq<NetworkEntity>, conns: seq<ConnectionId>):
    (r: (Delivered, seq<(NetworkEntity, ConnectionId)>))
    requires forall x: NetworkEntity :: x in order ==> x in spawnables
    requires forall i, j :: 0 <= i < j < |order| ==> order[i] != order[j]
    requires forall c: ConnectionId :: c in conns ==> c in delivered
    requires forall i, j :: 0 <= i < j < |conns| ==> conns[i] != conns[j]
    ensures PassedAll(cm, spawnables, delivered, order, conns, r)
    decreases |order|
  {
    if order == [] then (delivered, [])
    else
      var first := DetectFor(cm, spawnables, order[0], delivered, conns);
      OrderTail(order, spawnables);
      var rest := DetectAll(cm, spawnables, first.0, order[1..], conns);
      DetectAllStep(cm, spawnables, delivered, order, conns, first, rest);
      (rest.0, first.1 + rest.1)
  }

  /** The tail of a repeat-free list of registered objects is one too, without its head. */
  lemma OrderTail(order: seq<NetworkEntity>, spawnables: map<NetworkEntity, (NetworkTarget, Payload)>)
    requires |order| > 0
    requires forall x: NetworkEntity :: x in order ==> x in spawnables
    requires forall i, j :: 0 <= i < j < |order| ==> order[i] != order[j]
    ensures forall x: NetworkEntity :: x in order[1..] ==> x in spawnables
    ensures forall i, j :: 0 <= i < j < |order[1..]| ==> order[1..][i] != order[1..][j]
    ensures order[0] !in order[1..]
  {
    MemberSplit(order);
    assert forall i :: 0 <= i < |order[1..]| ==> order[1..][i] != order[0];
  }

  /** The step of `DetectAll`: the first object's pass followed by the rest's passes
      meets the loop's contract. */
  lemma DetectAllStep(cm: ConnectionManager, spawnables: map<NetworkEntity, (NetworkTarget, Payload)>,
                      delivered: Delivered, order: seq<NetworkEntity>, conns: seq<ConnectionId>,
                      first: (Delivered, seq<(NetworkEntity, ConnectionId)>),
                      rest: (Delivered, seq<(NetworkEntity, ConnectionId)>))
    requires |order| > 0 && forall x: NetworkEntity :: x in order ==> x in spawnables
    requires order[0] !in order[1..] && forall x: NetworkEntity :: x in order[1..] ==> x in spawnables
    requires PassedFor(cm, spawnables, order[0], delivered, conns, first)
    requires PassedAll(cm, spawnables, first.0, order[1..], conns, rest)
    ensures PassedAll(cm, spawnables, delivered, order, conns, (rest.0, first.1 + rest.1))
  {
    PassedForShape(cm, spawnables, order[0], delivered, conns, first);
    PassedAllShape(cm, spawnables, first.0, order[1..], conns, rest);
    DetectAllHeld(cm, spawnables, delivered, order, conns, first, rest);
    DetectAllLog(cm, spawnables, delivered, order, conns, first, rest);
    DetectAllDistinct(order, first.1, rest.1);
    PassedAllIntro(cm, spawnables, delivered, order, conns, rest.0, first.1 + rest.1);
  }

  /** `PassedFor` at one connection and one object. */
  lemma PassedForAt(cm: ConnectionManager, spawnables: map<NetworkEntity, (NetworkTarget, Payload)>,
                    ne: NetworkEntity, delivered: Delivered, conns: seq<ConnectionId>,
                    r: (Delivered, seq<(NetworkEntity, ConnectionId)>), c: ConnectionId, x: NetworkEntity)
    requires ne in spawnables && PassedFor(cm, spawnables, ne, delivered, conns, r)
    ensures x in Held(r.0, c) <==> x in Held(delivered, c) || (x == ne && c in conns && Audience(cm, spawnables, ne, c))
    ensures (ne, c) in r.1 <==> c in conns && Audience(cm, spawnables, ne, c) && ne !in Held(delivered, c)
  {
  }

  /** The parts of `PassedFor` that speak of the whole result. */
  lemma PassedForShape(cm: ConnectionManager, spawnables: map<NetworkEntity, (NetworkTarget, Payload)>,
                       ne: NetworkEntity, delivered: Delivered, conns: seq<ConnectionId>,
                       r: (Delivered, seq<(NetworkEntity, ConnectionId)>))
    requires ne in spawnables && PassedFor(cm, spawnables, ne, delivered, conns, r)
    ensures r.0.Keys == delivered.Keys
    ensures forall k :: 0 <= k < |r.1| ==> r.1[k].0 == ne
    ensures forall k, l :: 0 <= k < l < |r.1| ==> r.1[k] != r.1[l]
  {
  }

  /** `PassedAll` at one connection and one object. */
  lemma PassedAllAt(cm: ConnectionManager, spawnables: map<NetworkEntity, (NetworkTarget, Payload)>,
                    delivered: Delivered, order: seq<NetworkEntity>, conns: seq<ConnectionId>,
                    r: (Delivered, seq<(NetworkEntity, ConnectionId)>), c: ConnectionId, x: NetworkEntity)
    requires forall x: NetworkEntity :: x in order ==> x in spawnables
    requires PassedAll(cm, spawnables, delivered, order, conns, r)
    ensures x in Held(r.0, c) <==> x in Held(delivered, c) || (x in order && c in conns && Audience(cm, spawnables, x, c))
    ensures (x, c) in r.1 <==> x in order && c in conns && Audience(cm, spawnables, x, c) && x !in Held(delivered, c)
  {
    AddedOnAt(cm, spawnables, delivered, order, conns, r.0, c, x);
    LogsMissingAt(cm, spawnables, delivered, order, conns, r.1, c, x);
    if x in order {
      assert x in spawnables;
    }
  }

  /** `AddedOn` at one connection and one object. */
  lemma AddedOnAt(cm: ConnectionManager, spawnables: map<NetworkEntity, (NetworkTarget, Payload)>,
                  delivered: Delivered, order: seq<NetworkEntity>, conns: seq<ConnectionId>, held: Delivered,
                  c: ConnectionId, x: NetworkEntity)
    requires AddedOn(cm, spawnables, delivered, order, conns, held)
    ensures x in Held(held, c) <==>
      x in Held(delivered, c) || (x in order && x in spawnables && c in conns && Audience(cm, spawnables, x, c))
  {
    if x in spawnables && Audience(cm, spawnables, x, c) {
      assert x in Held(held, c) <==> x in Held(delivered, c) || (x in order && c in conns);
    } else {
      assert x in Held(held, c) <==> x in Held(delivered, c);
    }
  }

  /** `LogsMissing` at one connection and one object. */
  lemma LogsMissingAt(cm: ConnectionManager, spawnables: map<NetworkEntity, (NetworkTarget, Payload)>,
                      delivered: Delivered, order: seq<NetworkEntity>, conns: seq<ConnectionId>,
                      log: seq<(NetworkEntity, ConnectionId)>, c: ConnectionId, x: NetworkEntity)
    requires LogsMissing(cm, spawnables, delivered, order, conns, log)
    ensures (x, c) in log <==>
      x in order && x in spawnables && c in conns && Audience(cm, spawnables, x, c) && x !in Held(delivered, c)
  {
    if x in spawnables && Audience(cm, spawnables, x, c) {
      assert (x, c) in log <==> x in order && c in conns && x !in Held(delivered, c);
    } else {
      assert (x, c) !in log;
    }
  }

  /** The parts of `PassedAll` that speak of the whole result, and the objects its log names. */
  lemma PassedAllShape(cm: ConnectionManager, spawnables: map<NetworkEntity, (NetworkTarget, Payload)>,
                       delivered: Delivered, order: seq<NetworkEntity>, conns: seq<ConnectionId>,
                       r: (Delivered, seq<(NetworkEntity, ConnectionId)>))
    requires forall x: NetworkEntity :: x in order ==> x in spawnables
    requires PassedAll(cm, spawnables, delivered, order, conns, r)
    ensures r.0.Keys == delivered.Keys
    ensures forall k, l :: 0 <= k < l < |r.1| ==> r.1[k] != r.1[l]
    ensures forall x: NetworkEntity, c: ConnectionId :: (x, c) in r.1 ==> x in order
  {
    forall x: NetworkEntity, c: ConnectionId | (x, c) in r.1 ensures x in order {
      PassedAllAt(cm, spawnables, delivered, order, conns, r, c, x);
    }
  }

  /** `PassedAll` from its four parts. */
  lemma PassedAllIntro(cm: ConnectionManager, spawnables: map<NetworkEntity, (NetworkTarget, Payload)>,
                       delivered: Delivered, order: seq<NetworkEntity>, conns: seq<ConnectionId>,
                       held: Delivered, log: seq<(NetworkEntity, ConnectionId)>)
    requires forall x: NetworkEntity :: x in order ==> x in spawnables
    requires held.Keys == delivered.Keys
    requires AddedOn(cm, spawnables, delivered, order, conns, held)
    requires LogsMissing(cm, spawnables, delivered, order, conns, log)
    requires forall k, l :: 0 <= k < l < |log| ==> log[k] != log[l]
    ensures PassedAll(cm, spawnables, delivered, order, conns, (held, log))
  {
  }

  /** The delivered sets after the whole loop are those before it plus each object of
      `order` on the listed connections of its audience. */
  lemma DetectAllHeld(cm: ConnectionManager, spawnables: map<NetworkEntity, (NetworkTarget, Payload)>,
                      delivered: Delivered, order: seq<NetworkEntity>, conns: seq<ConnectionId>,
                      first: (Delivered, seq<(NetworkEntity, ConnectionId)>),
                      rest: (Delivered, seq<(NetworkEntity, ConnectionId)>))
    requires |order| > 0 && forall x: NetworkEntity :: x in order ==> x in spawnables
    requires forall x: NetworkEntity :: x in order[1..] ==> x in spawnables
    requires PassedFor(cm, spawnables, order[0], delivered, conns, first)
    requires PassedAll(cm, spawnables, first.0, order[1..], conns, rest)
    ensures AddedOn(cm, spawnables, delivered, order, conns, rest.0)
  {
    MemberSplit(order);
    forall c: ConnectionId, x: NetworkEntity
      ensures x in Held(rest.0, c) <==>
        x in Held(delivered, c) || (x in order && x in spawnables && c in conns && Audience(cm, spawnables, x, c))
    {
      PassedForAt(cm, spawnables, order[0], delivered, conns, first, c, x);
      PassedAllAt(cm, spawnables, first.0, order[1..], conns, rest, c, x);
    }
  }

  /** The filled pairs of the whole loop are those of the first object and those of
      the rest, judged against the sets before the first object's pass. */
  lemma DetectAllLog(cm: ConnectionManager, spawnables: map<NetworkEntity, (NetworkTarget, Payload)>,
                     delivered: Delivered, order: seq<NetworkEntity>, conns: seq<ConnectionId>,
                     first: (Delivered, seq<(NetworkEntity, ConnectionId)>),
                     rest: (Delivered, seq<(NetworkEntity, ConnectionId)>))
    requires |order| > 0 && forall x: NetworkEntity :: x in order ==> x in spawnables
    requires order[0] !in order[1..] && forall x: NetworkEntity :: x in order[1..] ==> x in spawnables
    requires PassedFor(cm, spawnables, order[0], delivered, conns, first)
    requires PassedAll(cm, spawnables, first.0, order[1..], conns, rest)
    ensures LogsMissing(cm, spawnables, delivered, order, conns, first.1 + rest.1)
  {
    MemberSplit(order);
    PassedForShape(cm, spawnables, order[0], delivered, conns, first);
    forall x: NetworkEntity, c: ConnectionId
      ensures (x, c) in first.1 + rest.1 <==>
        x in order && x in spawnables && c in conns && Audience(cm, spawnables, x, c) && x !in Held(delivered, c)
    {
      PassedForAt(cm, spawnables, order[0], delivered, conns, first, c, x);
      PassedAllAt(cm, spawnables, first.0, order[1..], conns, rest, c, x);
    }
  }

  /** Pairs of the first object never repeat among the rest's, whose objects differ. */
  lemma DetectAllDistinct(order: seq<NetworkEntity>, first: seq<(NetworkEntity, ConnectionId)>,
                          rest: seq<(NetworkEntity, ConnectionId)>)
    requires |order| > 0 && order[0] !in order[1..]
    requires forall k :: 0 <= k < |first| ==> first[k].0 == order[0]
    requires forall k, l :: 0 <= k < l < |first| ==> first[k] != first[l]
    requires forall x: NetworkEntity, c: ConnectionId :: (x, c) in rest ==> x in order[1..]
    requires forall k, l :: 0 <= k < l < |rest| ==> rest[k] != rest[l]
    ensures forall k, l :: 0 <= k < l < |first + rest| ==> (first + rest)[k] != (first + rest)[l]
  {
    var log := first + rest;
    forall k, l | 0 <= k < l < |log| ensures log[k] != log[l] {
      if k < |first| && l >= |first| {
        assert log[l] == rest[l - |first|];
        assert log[l] in rest;
      } else if k >= |first| {
        assert log[k] == rest[k - |first|] && log[l] == rest[l - |first|];
      }
    }
  }

  /** Both loops of detection run on the manager with every live connection tracked. */
  function Detected(cm: ConnectionManager, sm: SpawnManager, order: seq<NetworkEntity>, conns: seq<ConnectionId>):
    (r: (Delivered, seq<(NetworkEntity, ConnectionId)>))
    requires Enumerates(order, sm.spawnables.Keys) && Enumerates(conns, cm.connections.Keys)
  {
    DetectAll(cm, sm.spawnables, TrackConnections(cm, sm).delivered, order, conns)
  }

  /** `delivered` records what `sm` tracks plus every registered object on each
      connection of its audience, and nothing else. */
  ghost predicate CoversAudience(cm: ConnectionManager, delivered: Delivered, sm: SpawnManager) {
    forall c: ConnectionId, x: NetworkEntity :: x in Held(delivered, c) <==>
      x in Tracked(sm, c) || (x in sm.spawnables && Audience(cm, sm.spawnables, x, c))
  }

  /** `log` names exactly the (object, connection) pairs of `sm` where the connection is
      in the object's audience but not yet recorded as holding it. */
  ghost predicate LogsUncovered(cm: ConnectionManager, log: seq<(NetworkEntity, ConnectionId)>, sm: SpawnManager) {
    forall x: NetworkEntity, c: ConnectionId :: (x, c) in log <==>
      x in sm.spawnables && Audience(cm, sm.spawnables, x, c) && x !in Tracked(sm, c)
  }

  /** What detection achieves, stated against the manager it starts from. */
  lemma DetectedSpec(cm: ConnectionManager, sm: SpawnManager, order: seq<NetworkEntity>, conns: seq<ConnectionId>)
    requires AudiencesLive(cm, sm.spawnables)
    requires Enumerates(order, sm.spawnables.Keys) && Enumerates(conns, cm.connections.Keys)
    ensures Detected(cm, sm, order, conns).0.Keys == sm.delivered.Keys + cm.connections.Keys
    ensures CoversAudience(cm, Detected(cm, sm, order, conns).0, sm)
    ensures LogsUncovered(cm, Detected(cm, sm, order, conns).1, sm)
    ensures forall k :: 0 <= k < |Detected(cm, sm, order, conns).1| ==>
      Detected(cm, sm, order, conns).1[k].1 in cm.connections && Detected(cm, sm, order, conns).1[k].0 in sm.spawnables
  {
    PassesCover(cm, sm, order, conns, Detected(cm, sm, order, conns));
  }

  /** Passes over every object and every live connection, run on the manager with every
      live connection tracked, cover each audience and log exactly what was missing. */
  lemma PassesCover(cm: ConnectionManager, sm: SpawnManager, order: seq<NetworkEntity>, conns: seq<ConnectionId>,
                    d: (Delivered, seq<(NetworkEntity, ConnectionId)>))
    requires AudiencesLive(cm, sm.spawnables)
    requires Enumerates(order, sm.spawnables.Keys) && Enumerates(conns, cm.connections.Keys)
    requires PassedAll(cm, sm.spawnables, TrackConnections(cm, sm).delivered, order, conns, d)
    ensures d.0.Keys == sm.delivered.Keys + cm.connections.Keys
    ensures CoversAudience(cm, d.0, sm)
    ensures LogsUncovered(cm, d.1, sm)
    ensures forall k :: 0 <= k < |d.1| ==> d.1[k].1 in cm.connections && d.1[k].0 in sm.spawnables
  {
    var sm0 := TrackConnections(cm, sm);
    forall c: ConnectionId ensures Held(sm0.delivered, c) == Tracked(sm, c) {
    }
    forall x: NetworkEntity | x in sm.spawnables ensures x in order {
    }
    forall c: ConnectionId | c in cm.connections ensures c in conns {
    }
    forall c: ConnectionId, x: NetworkEntity
      ensures x in Held(d.0, c) <==> x in Tracked(sm, c) || (x in sm.spawnables && Audience(cm, sm.spawnables, x, c))
    {
      PassesCoverAt(cm, sm, order, conns, d, c, x);
    }
    forall x: NetworkEntity, c: ConnectionId
      ensures (x, c) in d.1 <==> x in sm.spawnables && Audience(cm, sm.spawnables, x, c) && x !in Tracked(sm, c)
    {
      PassesCoverAt(cm, sm, order, conns, d, c, x);
    }
    assert forall k :: 0 <= k < |d.1| ==> d.1[k] in d.1;
  }

  /** `PassesCover` at one connection and one object. */
  lemma PassesCoverAt(cm: ConnectionManager, sm: SpawnManager, order: seq<NetworkEntity>, conns: seq<ConnectionId>,
                      d: (Delivered, seq<(NetworkEntity, ConnectionId)>), c: ConnectionId, x: NetworkEntity)
    requires AudiencesLive(cm, sm.spawnables)
    requires Enumerates(order, sm.spawnables.Keys) && Enumerates(conns, cm.connections.Keys)
    requires PassedAll(cm, sm.spawnables, TrackConnections(cm, sm).delivered, order, conns, d)
    ensures x in Held(d.0, c) <==> x in Tracked(sm, c) || (x in sm.spawnables && Audience(cm, sm.spawnables, x, c))
    ensures (x, c) in d.1 <==> x in sm.spawnables && Audience(cm, sm.spawnables, x, c) && x !in Tracked(sm, c)
  {
    var sm0 := TrackConnections(cm, sm);
    assert Held(sm0.delivered, c) == Tracked(sm, c);
    assert x in order <==> x in sm.spawnables;
    assert c in conns <==> c in cm.connections;
    PassedAllAt(cm, sm.spawnables, sm0.delivered, order, conns, d, c, x);
  }

  /** `spawn_detection_system`: track every live connection, then for each registered
      object and each connection its audience resolves to, if the connection lacks the
      object, mark it delivered and queue the object's spawn payload to that connection's
      actor alone. Returns the new manager, the new payload queue and the log of filled
      (object, connection) pairs. `order` and `conns` are the iteration orders of the
      two maps. */
  function SpawnDetectionSystem(cm: ConnectionManager, sm: SpawnManager, queue: seq<(NetworkTarget, Payload)>,
                                order: seq<NetworkEntity>, conns: seq<ConnectionId>):
    (r: (SpawnManager, seq<(NetworkTarget, Payload)>, seq<(NetworkEntity, ConnectionId)>))
    requires AudiencesLive(cm, sm.spawnables)
    requires Enumerates(order, sm.spawnables.Keys) && Enumerates(conns, cm.connections.Keys)
    ensures r.0.spawnables == sm.spawnables
    ensures r.0.delivered.Keys == sm.delivered.Keys + cm.connections.Keys
  {
    DetectedSpec(cm, sm, order, conns);
    var detected := Detected(cm, sm, order, conns);
    (sm.(delivered := detected.0), queue + SpawnSends(cm, sm, detected.1), detected.1)
  }

  /** One spawn payload per logged pair, addressed to that connection's actor alone. */
  function SpawnSends(cm: ConnectionManager, sm: SpawnManager, log: seq<(NetworkEntity, ConnectionId)>):
    (r: seq<(NetworkTarget, Payload)>)
    requires forall k :: 0 <= k < |log| ==> log[k].1 in cm.connections && log[k].0 in sm.spawnables
    ensures |r| == |log|
    ensures forall k :: 0 <= k < |log| ==>
      r[k] == (ActorId(cm.connections[log[k].1].actor.id), sm.spawnables[log[k].0].1)
  {
    seq(|log|, k requires 0 <= k < |log| => (ActorId(cm.connections[log[k].1].actor.id), sm.spawnables[log[k].0].1))
  }

  /** Detection covers every audience, logs exactly the pairs that were missing, once
      each, and appends to the queue one spawn payload per logged pair, addressed to
      that connection's actor and carrying the object's spawn payload. */
  lemma DetectionSpec(cm: ConnectionManager, sm: SpawnManager, queue: seq<(NetworkTarget, Payload)>,
                      order: seq<NetworkEntity>, conns: seq<ConnectionId>)
    requires AudiencesLive(cm, sm.spawnables)
    requires Enumerates(order, sm.spawnables.Keys) && Enumerates(conns, cm.connections.Keys)
    ensures CoversAudience(cm, SpawnDetectionSystem(cm, sm, queue, order, conns).0.delivered, sm)
    ensures LogsUncovered(cm, SpawnDetectionSystem(cm, sm, queue, order, conns).2, sm)
    ensures forall k, l :: 0 <= k < l < |SpawnDetectionSystem(cm, sm, queue, order, conns).2| ==>
      SpawnDetectionSystem(cm, sm, queue, order, conns).2[k] != SpawnDetectionSystem(cm, sm, queue, order, conns).2[l]
    ensures |SpawnDetectionSystem(cm, sm, queue, order, conns).1| == |queue| + |SpawnDetectionSystem(cm, sm, queue, order, conns).2|
    ensures SpawnDetectionSystem(cm, sm, queue, order, conns).1[..|queue|] == queue
    ensures forall k :: 0 <= k < |SpawnDetectionSystem(cm, sm, queue, order, conns).2| ==>
      && SpawnDetectionSystem(cm, sm, queue, order, conns).2[k].1 in cm.connections
      && SpawnDetectionSystem(cm, sm, queue, order, conns).2[k].0 in sm.spawnables
      && SpawnDetectionSystem(cm, sm, queue, order, conns).1[|queue| + k]
         == (ActorId(cm.connections[SpawnDetectionSystem(cm, sm, queue, order, conns).2[k].1].actor.id),
             sm.spawnables[SpawnDetectionSystem(cm, sm, queue, order, conns).2[k].0].1)
  {
    DetectedSpec(cm, sm, order, conns);
    var log := Detected(cm, sm, order, conns).1;
    var r := SpawnDetectionSystem(cm, sm, queue, order, conns);
    assert r.1 == queue + SpawnSends(cm, sm, log);
    assert r.1[..|queue|] == queue;
  }

  /** A manager that already tracks every live connection and covers every
      (object, audience member) pair is left alone: nothing is queued, nothing changes. */
  lemma DetectionNoop(cm: ConnectionManager, sm: SpawnManager, queue: seq<(NetworkTarget, Payload)>,
                      order: seq<NetworkEntity>, conns: seq<ConnectionId>)
    requires AudiencesLive(cm, sm.spawnables)
    requires Enumerates(order, sm.spawnables.Keys) && Enumerates(conns, cm.connections.Keys)
    requires cm.connections.Keys <= sm.delivered.Keys
    requires forall x: NetworkEntity, c: ConnectionId :: x in sm.spawnables && Audience(cm, sm.spawnables, x, c) ==> x in Tracked(sm, c)
    ensures SpawnDetectionSystem(cm, sm, queue, order, conns) == (sm, queue, [])
  {
    DetectionSpec(cm, sm, queue, order, conns);
    NoopFromSpec(cm, sm, queue, SpawnDetectionSystem(cm, sm, queue, order, conns));
  }

  /** The step of `DetectionNoop` stated on any result meeting detection's contract. */
  lemma NoopFromSpec(cm: ConnectionManager, sm: SpawnManager, queue: seq<(NetworkTarget, Payload)>,
                     r: (SpawnManager, seq<(NetworkTarget, Payload)>, seq<(NetworkEntity, ConnectionId)>))
    requires cm.connections.Keys <= sm.delivered.Keys
    requires forall x: NetworkEntity, c: ConnectionId :: x in sm.spawnables && Audience(cm, sm.spawnables, x, c) ==> x in Tracked(sm, c)
    requires r.0.spawnables == sm.spawnables
    requires r.0.delivered.Keys == sm.delivered.Keys + cm.connections.Keys
    requires CoversAudience(cm, r.0.delivered, sm)
    requires LogsUncovered(cm, r.2, sm)
    requires |r.1| == |queue| + |r.2| && r.1[..|queue|] == queue
    ensures r == (sm, queue, [])
  {
    LogHead(cm, sm, r.2);
    forall c: ConnectionId, x: NetworkEntity ensures x in Tracked(r.0, c) <==> x in Tracked(sm, c) {
      NoopAt(cm, sm, r.0.delivered, c, x);
    }
    SameTracking(r.0, sm);
    assert r.1 == r.1[..|queue|];
  }

  /** `NoopFromSpec` at one connection and one object: covering an audience that is
      already tracked adds nothing. */
  lemma NoopAt(cm: ConnectionManager, sm: SpawnManager, delivered: Delivered, c: ConnectionId, x: NetworkEntity)
    requires forall x: NetworkEntity, c: ConnectionId :: x in sm.spawnables && Audience(cm, sm.spawnables, x, c) ==> x in Tracked(sm, c)
    requires CoversAudience(cm, delivered, sm)
    ensures x in Held(delivered, c) <==> x in Tracked(sm, c)
  {
    CoversAudienceAt(cm, delivered, sm, c, x);
    if x in sm.spawnables && Audience(cm, sm.spawnables, x, c) {
      assert x in Tracked(sm, c);
    }
  }

  /** `CoversAudience` at one connection and one object. */
  lemma CoversAudienceAt(cm: ConnectionManager, delivered: Delivered, sm: SpawnManager, c: ConnectionId, x: NetworkEntity)
    requires CoversAudience(cm, delivered, sm)
    ensures x in Held(delivered, c) <==> x in Tracked(sm, c) || (x in sm.spawnables && Audience(cm, sm.spawnables, x, c))
  {
    if x in sm.spawnables && Audience(cm, sm.spawnables, x, c) {
      assert x in Held(delivered, c);
    } else {
      assert x in Held(delivered, c) <==> x in Tracked(sm, c);
    }
  }

  /** The head of a log characterised pairwise names an uncovered audience member. */
  lemma LogHead(cm: ConnectionManager, sm: SpawnManager, log: seq<(NetworkEntity, ConnectionId)>)
    requires LogsUncovered(cm, log, sm)
    ensures |log| > 0 ==>
      log[0].0 in sm.spawnables && Audience(cm, sm.spawnables, log[0].0, log[0].1) && log[0].0 !in Tracked(sm, log[0].1)
  {
    if |log| > 0 {
      assert (log[0].0, log[0].1) in log;
    }
  }

  /** Two managers with the same objects, the same tracked connections and the same
      delivered sets are equal. */
  lemma SameTracking(a: SpawnManager, b: SpawnManager)
    requires a.spawnables == b.spawnables && a.delivered.Keys == b.delivered.Keys
    requires forall c: ConnectionId, x: NetworkEntity :: x in Tracked(a, c) <==> x in Tracked(b, c)
    ensures a == b
  {
    forall c: ConnectionId | c in a.delivered ensures a.delivered[c] == b.delivered[c] {
      assert Tracked(a, c) == Tracked(b, c);
    }
    assert a.delivered == b.delivered;
  }

  /** Detection converges in one pass: run again on its own result with nothing else
      changed, it queues nothing and leaves the manager as it was. */
  lemma DetectionIdempotent(cm: ConnectionManager, sm: SpawnManager, queue: seq<(NetworkTarget, Payload)>,
                            order: seq<NetworkEntity>, conns: seq<ConnectionId>)
    requires AudiencesLive(cm, sm.spawnables)
    requires Enumerates(order, sm.spawnables.Keys) && Enumerates(conns, cm.connections.Keys)
    ensures SpawnDetectionSystem(cm, SpawnDetectionSystem(cm, sm, queue, order, conns).0,
                                 SpawnDetectionSystem(cm, sm, queue, order, conns).1, order, conns)
         == (SpawnDetectionSystem(cm, sm, queue, order, conns).0, SpawnDetectionSystem(cm, sm, queue, order, conns).1, [])
  {
    var once := SpawnDetectionSystem(cm, sm, queue, order, conns);
    DetectionNoop(cm, once.0, once.1, order, conns);
  }

  /* ---------------- receiving spawns ---------------- */

  /** `SpawnContext`: who we are and who asked for the spawn. */
  datatype SpawnContext = SpawnContext(local: Actor, sender: Actor)

  /** The ids of the `Spawn` payloads among `messages`, in order. */
  function SpawnIds(messages: seq<Message>): (r: seq<NetworkEntity>)
    ensures |r| <= |messages|
    ensures forall ne: NetworkEntity :: ne in r <==>
      exists k :: 0 <= k < |messages| && messages[k].payload.Spawn? && messages[k].payload.networkEntity == ne
  {
    if messages == [] then []
    else
      var rest := SpawnIds(messages[1..]);
      assert forall k :: 1 <= k < |messages| ==> messages[k] == messages[1..][k - 1];
      if messages[0].payload.Spawn? then [messages[0].payload.networkEntity] + rest else rest
  }

  /** No id repeats in `ids` and none is already registered. */
  predicate FreshIds(reg: NetworkEntityRegistry, ids: seq<NetworkEntity>) {
    && (forall i, j :: 0 <= i < j < |ids| ==> ids[i] != ids[j])
    && (forall i :: 0 <= i < |ids| ==> ids[i] !in reg.entities)
  }

  /** The registry-insert logic of `spawn_system`: every `Spawn` message is handed to the
      spawn callback with the receiver as local actor and the sender as sender, and the
      object it returns is registered under the message's id; other payloads are
      skipped. A duplicate id aborts the system (the source unwraps the insert), modelled
      as `Err(DuplicateNetworkEntity)`. */
  function SpawnSystem(reg: NetworkEntityRegistry, messages: seq<Message>,
                       spawn: (SpawnContext, NetworkEntity, Bytes) -> Entity): (r: Result<NetworkEntityRegistry, Error>)
    ensures r.Ok? <==> FreshIds(reg, SpawnIds(messages))
    ensures r.Err? ==> r.error == DuplicateNetworkEntity
    ensures r.Ok? ==> reg.entities.Keys <= r.value.entities.Keys && reg.next <= r.value.next
    ensures r.Ok? ==> forall ne :: ne in reg.entities ==> r.value.entities[ne] == reg.entities[ne]
    ensures r.Ok? ==> forall m :: m in messages && m.payload.Spawn? ==>
      && m.payload.networkEntity in r.value.entities
      && r.value.entities[m.payload.networkEntity]
         == spawn(SpawnContext(m.receiver, m.sender), m.payload.networkEntity, m.payload.data)
    ensures r.Ok? ==> forall ne: NetworkEntity :: ne in r.value.entities <==> ne in reg.entities || ne in SpawnIds(messages)
    ensures r.Ok? && Inv(reg) ==> Inv(r.value)
    decreases |messages|
  {
    if messages == [] then Ok(reg)
    else
      var m := messages[0];
      match m.payload
      case Spawn(ne, data) =>
        var entity := spawn(SpawnContext(m.receiver, m.sender), ne, data);
        var inserted := Insert(reg, ne, entity);
        if inserted.1.Err? then
          assert SpawnIds(messages) == [ne] + SpawnIds(messages[1..]);
          assert SpawnIds(messages)[0] in reg.entities;
          Err(DuplicateNetworkEntity)
        else
          SpawnSystemStep(reg, messages, inserted.0);
          assert SpawnIds(messages) == [ne] + SpawnIds(messages[1..]);
          SpawnSystem(inserted.0, messages[1..], spawn)
      case ComponentUpdate(_, _, _) =>
        assert SpawnIds(messages) == SpawnIds(messages[1..]);
        SpawnSystem(reg, messages[1..], spawn)
  }

  /** Freshness of the whole id list splits into freshness of its head and of the tail
      against the registry with the head inserted. */
  lemma SpawnSystemStep(reg: NetworkEntityRegistry, messages: seq<Message>, reg1: NetworkEntityRegistry)
    requires |messages| > 0 && messages[0].payload.Spawn?
    requires messages[0].payload.networkEntity !in reg.entities
    requires reg1.entities.Keys == reg.entities.Keys + {messages[0].payload.networkEntity}
    ensures FreshIds(reg, SpawnIds(messages)) <==> FreshIds(reg1, SpawnIds(messages[1..]))
  {
    SpawnIdsCons(messages);
    FreshCons(reg, reg1, messages[0].payload.networkEntity, SpawnIds(messages[1..]));
  }

  /** `SpawnIds` of a list headed by a `Spawn` message. */
  lemma SpawnIdsCons(messages: seq<Message>)
    requires |messages| > 0 && messages[0].payload.Spawn?
    ensures SpawnIds(messages) == [messages[0].payload.networkEntity] + SpawnIds(messages[1..])
  {
  }

  /** Freshness of a list splits into freshness of its head and of its tail against
      the registry with the head inserted. */
  lemma FreshCons(reg: NetworkEntityRegistry, reg1: NetworkEntityRegistry, ne: NetworkEntity, tail: seq<NetworkEntity>)
    requires ne !in reg.entities
    requires reg1.entities.Keys == reg.entities.Keys + {ne}
    ensures FreshIds(reg, [ne] + tail) <==> FreshIds(reg1, tail)
  {
    var ids := [ne] + tail;
    if FreshIds(reg, ids) {
      forall i | 0 <= i < |tail| ensures tail[i] !in reg1.entities {
        assert ids[i + 1] == tail[i];
        assert ids[0] != ids[i + 1];
      }
      forall i, j | 0 <= i < j < |tail| ensures tail[i] != tail[j] {
        assert ids[i + 1] == tail[i] && ids[j + 1] == tail[j];
      }
    }
    if FreshIds(reg1, tail) {
      forall i, j | 0 <= i < j < |ids| ensures ids[i] != ids[j] {
        if i == 0 {
          assert ids[j] == tail[j - 1];
        } else {
          assert ids[i] == tail[i - 1] && ids[j] == tail[j - 1];
        }
      }
      forall i | 0 <= i < |ids| ensures ids[i] !in reg.entities {
        if i > 0 {
          assert ids[i] == tail[i - 1];
        }
      }
    }
  }
}
