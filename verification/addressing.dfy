/** Peer identity and message audiences: `ActorId`, `ActorTy`, `Actor`, `NetworkTarget`
    and the predicate `Actor::targeted_by`, plus the small value types shared by every
    other module of the replication core. */
module Addressing {

  datatype Option<T> = None | Some(value: T)

  /** The shape of Rust's `Result<T, crate::Error>`; the error type is fixed per use. */
  datatype Result<T, E> = Ok(value: T) | Err(error: E)

  newtype byte = x: int | 0 <= x < 256
  type Bytes = seq<byte>

  /** 64-bit peer id; unbounded here (wrap-around of the generators is not modelled). */
  type ActorId = nat
  /** Opaque 128-bit role tag (`Uuid`). */
  type ActorTy = nat
  /** Locally scoped handle of one connection, never transmitted. */
  type ConnectionId = nat
  /** Network-wide id of a replicated object. */
  type NetworkEntity = nat
  /** Process-private handle of a local object (bevy's `Entity`). */
  type Entity = nat
  /** Type tag of a replicated attribute (`NetworkTypeUuid::UUID`). */
  type Uuid = nat

  /** The addressable identity of one peer. */
  datatype Actor = Actor(id: ActorId, ty: ActorTy)

  /** Who should receive a message; evaluated against the live connection table. */
  datatype NetworkTarget = ActorId(id: ActorId) | ActorTy(ty: ActorTy) | All

  /** `Actor::targeted_by`: `All` takes everyone, `ActorId` compares the id,
      `ActorTy` compares the role tag. */
  predicate TargetedBy(a: Actor, t: NetworkTarget) {
    match t
    case All => true
    case ActorId(id) => a.id == id
    case ActorTy(ty) => a.ty == ty
  }

  /** `order` lists every element of `keys` exactly once: one possible iteration
      order of a `HashMap` or `HashSet` with that key set. */
  predicate Enumerates<K>(order: seq<K>, keys: set<K>) {
    && (forall i, j :: 0 <= i < j < |order| ==> order[i] != order[j])
    && (forall i :: 0 <= i < |order| ==> order[i] in keys)
    && (forall k :: k in keys ==> k in order)
  }

  /** Dropping the head of an enumeration enumerates the remaining keys. */
  lemma EnumeratesTail<K>(order: seq<K>, keys: set<K>)
    requires Enumerates(order, keys) && |order| > 0
    ensures Enumerates(order[1..], keys - {order[0]})
  {
    forall k | k in keys - {order[0]}
      ensures k in order[1..]
    {
      var i :| 0 <= i < |order| && order[i] == k;
      assert i != 0;
      assert order[1..][i - 1] == k;
    }
  }
}
