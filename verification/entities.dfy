/** The world as the targeting logic sees it in one frame. Every game query the
    plugin makes about an object (its kind, whether it can be attacked or
    targeted, whether it projects onto the screen, line of sight, distance to
    the local player) is a field fixed for the frame; the two queries that take
    an extra argument (the camera-cone test and the distance between two
    objects) are total functions carried by the `Scene`. */
module Entities {
  import opened Wrappers

  /** `IGameObject.EntityId`. */
  type EntityId = nat

  /** `ObjectKind`; only battle NPCs and players are ever considered. */
  datatype Kind = BattleNpc | Player | OtherKind

  /** `EventId.ContentId`: the event handler an object belongs to. */
  datatype Director = TreasureHuntDirector | BattleLeveDirector | OtherHandler

  /** One object of the object table. */
  datatype Entity = Entity(
    id: EntityId,
    kind: Kind,
    isLocalPlayer: bool,    // the object is `Client.LocalPlayer` itself
    canAttack: bool,        // `Utils.CanAttack`
    targetable: bool,       // `GetIsTargetable`
    director: Director,     // `EventId.ContentId`
    eventId: nat,           // `EventId.Id`
    distance: int,          // distance to the local player
    onScreen: bool,         // projects inside the viewport and in front of the camera
    lineOfSight: bool,      // `Utils.IsInLineOfSight`
    hp: nat)                // `CurrentHp`

  /** The local player, as far as classification needs it. */
  datatype Avatar = Avatar(eventId: nat)

  /** One cone band of the configuration. */
  datatype Cone = Cone(distance: int, angle: int)

  /** The targeting part of the plugin configuration. Cone 1 is always on. */
  datatype Config = Config(
    closeEnabled: bool,
    closeRadius: int,
    cone1: Cone,
    cone2Enabled: bool,
    cone2: Cone,
    cone3Enabled: bool,
    cone3: Cone)

  /** Everything one entry point reads from the game in one frame. */
  datatype Scene = Scene(
    objects: seq<Entity>,                // the object table, in table order
    player: Option<Avatar>,              // `Client.LocalPlayer`
    enemyList: set<EntityId>,            // ids shown by the enemy list addon
    config: Config,
    inFront: (Entity, int) -> bool,      // `Utils.IsInFrontOfCamera(obj, angle)`
    gap: (Entity, Entity) -> int)        // `Utils.DistanceBetweenObjects(a, b)`

  /** `Select(o => o.EntityId)`. */
  function Ids(es: seq<Entity>): (ids: seq<EntityId>)
    ensures |ids| == |es|
    ensures forall i :: 0 <= i < |es| ==> ids[i] == es[i].id
  {
    seq(|es|, i requires 0 <= i < |es| => es[i].id)
  }
}
