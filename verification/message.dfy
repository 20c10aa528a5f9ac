/** The replicated facts and their envelopes (message.rs), the crate's error type
    (error.rs) and the connect-time handshake (handshake.rs). */
module Messages {
  import opened Addressing

  /** The only two replicated fact kinds. */
  datatype Payload =
    | ComponentUpdate(targetEntity: NetworkEntity, networkTypeUuid: Uuid, data: Bytes)
    | Spawn(networkEntity: NetworkEntity, data: Bytes)

  /** A payload with its provenance, built only on receipt. */
  datatype Message = Message(payload: Payload, sender: Actor, receiver: Actor)

  /** The kind of an `std::io::Error` that matters to the core. */
  datatype IoErrorKind = WouldBlock | OtherIo

  /** `crate::Error`: a CBOR failure, an I/O failure, or a duplicate registry insert. */
  datatype Error = Cbor | Io(kind: IoErrorKind) | DuplicateNetworkEntity

  /** `Handshake`; `NoOverride` is the source's `Handshake::None`. */
  datatype Handshake =
    | Override(senderActorId: ActorId, receiverActorId: ActorId)
    | NoOverride

  /** `ConnectionEvent`: the lifecycle facts published next to the messages. */
  datatype ConnectionEvent =
    | Connected(actor: Actor, connectionId: ConnectionId)
    | Disconnected(actor: Actor, connectionId: ConnectionId, cause: Error)

  /** True for the error that means "nothing more this tick". */
  predicate IsWouldBlock(e: Error) {
    e == Io(WouldBlock)
  }
}
