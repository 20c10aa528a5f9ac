/** `NetworkEntityRegistry` (network_entity.rs): the map from network-wide ids to local
    handles, with a duplicate guard and a monotone id generator. */
module Registry {
  import opened Addressing
  import opened Messages

  datatype NetworkEntityRegistry = NetworkEntityRegistry(entities: map<NetworkEntity, Entity>, next: NetworkEntity)

  /** Every registered id lies below the generator, so the generator never repeats one. */
  predicate Inv(reg: NetworkEntityRegistry) {
    forall ne :: ne in reg.entities ==> ne < reg.next
  }

  /** `NetworkEntityRegistry::new`. */
  function New(): (reg: NetworkEntityRegistry)
    ensures Inv(reg)
    ensures reg.entities == map[] && reg.next == 0
  {
    NetworkEntityRegistry(map[], 0)
  }

  /** `get`. */
  function Get(reg: NetworkEntityRegistry, ne: NetworkEntity): (r: Option<Entity>)
    ensures r.Some? <==> ne in reg.entities
    ensures r.Some? ==> reg.entities[ne] == r.value
  {
    if ne in reg.entities then Some(reg.entities[ne]) else None
  }

  /** `generate_network_entity`: hand out the counter, then increment it. */
  function Generate(reg: NetworkEntityRegistry): (r: (NetworkEntity, NetworkEntityRegistry))
    ensures r.0 == reg.next && r.1.entities == reg.entities && r.1.next == reg.next + 1
    ensures Inv(reg) ==> Inv(r.1) && r.0 !in reg.entities
  {
    (reg.next, reg.(next := reg.next + 1))
  }

  /** `insert`: an absent id is recorded and pushes the generator past it; a present id
      is refused with `DuplicateNetworkEntity` and nothing changes. */
  function Insert(reg: NetworkEntityRegistry, ne: NetworkEntity, entity: Entity): (r: (NetworkEntityRegistry, Result<(), Error>))
    ensures r.1.Ok? <==> ne !in reg.entities
    ensures r.1.Err? ==> r.1.error == DuplicateNetworkEntity && r.0 == reg
    ensures r.1.Ok? ==> r.0.entities == reg.entities[ne := entity]
    ensures r.1.Ok? ==> r.0.next > ne
    ensures reg.next <= r.0.next
    ensures Inv(reg) ==> Inv(r.0)
  {
    if ne !in reg.entities then
      var next := if ne >= reg.next then ne + 1 else reg.next;
      (NetworkEntityRegistry(reg.entities[ne := entity], next), Ok(()))
    else (reg, Err(DuplicateNetworkEntity))
  }

  /** Insert-then-get: a successful insert makes `get` return the new handle and leaves
      every other id's lookup as it was. */
  lemma InsertThenGet(reg: NetworkEntityRegistry, ne: NetworkEntity, entity: Entity, other: NetworkEntity)
    requires ne !in reg.entities
    ensures Get(Insert(reg, ne, entity).0, ne) == Some(entity)
    ensures other != ne ==> Get(Insert(reg, ne, entity).0, other) == Get(reg, other)
  {
  }

  /** The ids handed out by `n` successive generations, in order. */
  function GenerateMany(reg: NetworkEntityRegistry, n: nat): (r: (seq<NetworkEntity>, NetworkEntityRegistry))
    ensures |r.0| == n && r.1.entities == reg.entities
    decreases n
  {
    if n == 0 then ([], reg)
    else
      var (ne, reg1) := Generate(reg);
      var (rest, reg2) := GenerateMany(reg1, n - 1);
      ([ne] + rest, reg2)
  }

  /** Successive generations return strictly increasing ids, all fresh, starting at the
      counter; the counter ends past all of them. */
  lemma {:induction false} GenerateManyFresh(reg: NetworkEntityRegistry, n: nat)
    requires Inv(reg)
    ensures var (ids, reg') := GenerateMany(reg, n);
      && (forall i :: 0 <= i < n ==> ids[i] == reg.next + i && ids[i] !in reg.entities)
      && (forall i, j :: 0 <= i < j < n ==> ids[i] < ids[j])
      && reg'.next == reg.next + n && Inv(reg')
    decreases n
  {
    if n > 0 {
      var (ne, reg1) := Generate(reg);
      GenerateManyFresh(reg1, n - 1);
    }
  }
}
