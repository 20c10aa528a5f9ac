/** `NetworkSettings` (settings.rs): the two role configurations, with the role tags
    `Server` and `Client` of lib.rs. */
module Settings {
  import opened Addressing

  /** `Server::UUID` and `Client::UUID` (lib.rs:32-33). */
  const SERVER_TY: ActorTy := 481231321231324654321324
  const CLIENT_TY: ActorTy := 1213214233146531133716878546

  /** Our own role, the role every new connection is given, and the audiences that
      component updates are sent to. */
  datatype NetworkSettings = NetworkSettings(actorTy: ActorTy, connectionTy: ActorTy, syncComponentsWith: seq<NetworkTarget>)

  /** `NetworkSettings::server`. */
  function ServerSettings(): (s: NetworkSettings)
    ensures s.actorTy == SERVER_TY && s.connectionTy == CLIENT_TY
    ensures s.syncComponentsWith == [ActorTy(CLIENT_TY)]
  {
    NetworkSettings(SERVER_TY, CLIENT_TY, [ActorTy(CLIENT_TY)])
  }

  /** `NetworkSettings::client`. */
  function ClientSettings(): (s: NetworkSettings)
    ensures s.actorTy == CLIENT_TY && s.connectionTy == SERVER_TY
    ensures s.syncComponentsWith == [ActorTy(SERVER_TY)]
  {
    NetworkSettings(CLIENT_TY, SERVER_TY, [ActorTy(SERVER_TY)])
  }

  /** The two roles are mirror images: each types its connections with the other's
      role, syncs with exactly the other role, and the roles are distinct, so a
      component update is never addressed back to a peer of the sender's own role. */
  lemma RolesMirror()
    ensures ServerSettings().connectionTy == ClientSettings().actorTy
    ensures ClientSettings().connectionTy == ServerSettings().actorTy
    ensures ServerSettings().actorTy != ClientSettings().actorTy
    ensures forall a: Actor, t :: t in ServerSettings().syncComponentsWith ==>
      (TargetedBy(a, t) <==> a.ty == ClientSettings().actorTy)
    ensures forall a: Actor, t :: t in ClientSettings().syncComponentsWith ==>
      (TargetedBy(a, t) <==> a.ty == ServerSettings().actorTy)
  {
  }
}
