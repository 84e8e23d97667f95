/** `Plugin.GetTargets`: one pass over the object table that sorts the
    attackable objects into the four lists every strategy works from. */
module Classifier {
  import opened Wrappers
  import opened Sequences
  import opened Entities

  /** A little under the vanilla targeting range. */
  const MaxTargetDistance: int := 49

  /** The four lists, each in object-table order. */
  datatype ObjectsList = ObjectsList(
    targets: seq<Entity>,     // in the frontal cone
    close: seq<Entity>,       // inside the close circle
    enemy: seq<Entity>,       // shown in the enemy list addon
    onScreen: seq<Entity>)    // visible on screen

  const NoObjects := ObjectsList([], [], [], [])

  /** The object table query: battle NPCs and players, not the local player,
      that the local player can attack. */
  predicate IsCandidate(e: Entity) {
    (e.kind == BattleNpc || e.kind == Player) && !e.isLocalPlayer && e.canAttack
  }

  predicate InEnemyList(e: Entity, enemyList: set<EntityId>) {
    IsCandidate(e) && e.id in enemyList
  }

  /** Part of another party's treasure hunt or levequest. */
  predicate InForeignInstance(e: Entity, a: Avatar) {
    (e.director == TreasureHuntDirector || e.director == BattleLeveDirector) && e.eventId != a.eventId
  }

  predicate IsOnScreen(e: Entity, a: Avatar) {
    && IsCandidate(e)
    && e.targetable
    && !InForeignInstance(e, a)
    && e.distance <= MaxTargetDistance
    && e.onScreen
    && e.lineOfSight
  }

  predicate IsClose(e: Entity, a: Avatar, cfg: Config) {
    IsOnScreen(e, a) && cfg.closeEnabled && e.distance < cfg.closeRadius
  }

  /** The enabled cone bands, innermost first. */
  function EnabledCones(cfg: Config): (bands: seq<Cone>)
    ensures 1 <= |bands| <= 3 && bands[0] == cfg.cone1
  {
    [cfg.cone1]
    + (if cfg.cone2Enabled then [cfg.cone2] else [])
    + (if cfg.cone3Enabled then [cfg.cone3] else [])
  }

  /** Reference rule for the cone angle over a list of bands: the outermost
      band applies once the distance exceeds the threshold of the band just
      inside it; otherwise the rule is applied to the inner bands. */
  function BandAngle(bands: seq<Cone>, distance: int): int
    requires |bands| > 0
  {
    if |bands| == 1 then bands[0].angle
    else if distance > bands[|bands| - 2].distance then bands[|bands| - 1].angle
    else BandAngle(bands[..|bands| - 1], distance)
  }

  /** Objects further away than this are never cone targets. */
  function ConeCutoff(cfg: Config): (d: int)
    ensures d == EnabledCones(cfg)[|EnabledCones(cfg)| - 1].distance
  {
    if cfg.cone3Enabled then cfg.cone3.distance
    else if cfg.cone2Enabled then cfg.cone2.distance
    else cfg.cone1.distance
  }

  /** The camera-cone angle applied to an object at `distance`. */
  function ConeAngle(cfg: Config, distance: int): (angle: int)
    ensures angle == BandAngle(EnabledCones(cfg), distance)
    ensures !cfg.cone2Enabled && !cfg.cone3Enabled ==> angle == cfg.cone1.angle
    ensures cfg.cone2Enabled && !cfg.cone3Enabled ==>
      angle == (if distance > cfg.cone1.distance then cfg.cone2.angle else cfg.cone1.angle)
    ensures !cfg.cone2Enabled && cfg.cone3Enabled ==>
      angle == (if distance > cfg.cone1.distance then cfg.cone3.angle else cfg.cone1.angle)
  {
    EnabledConesShape(cfg, distance);
    if cfg.cone3Enabled then
        if cfg.cone2Enabled then
          if distance > cfg.cone2.distance then cfg.cone3.angle
          else if distance > cfg.cone1.distance then cfg.cone2.angle
          else cfg.cone1.angle
        else if distance > cfg.cone1.distance then cfg.cone3.angle
        else cfg.cone1.angle
      else if cfg.cone2Enabled && distance > cfg.cone1.distance then cfg.cone2.angle
      else cfg.cone1.angle
  }

  lemma EnabledConesShape(cfg: Config, distance: int)
    ensures cfg.cone2Enabled && cfg.cone3Enabled ==>
      BandAngle(EnabledCones(cfg), distance) ==
        (if distance > cfg.cone2.distance then cfg.cone3.angle
         else BandAngle([cfg.cone1, cfg.cone2], distance))
    ensures var bands := EnabledCones(cfg);
      var (c1, c2, c3) := (cfg.cone1, cfg.cone2, cfg.cone3);
      && (cfg.cone2Enabled && cfg.cone3Enabled ==> bands == [c1, c2, c3] && bands[..2] == [c1, c2] && bands[..2][..1] == [c1])
      && (cfg.cone2Enabled && !cfg.cone3Enabled ==> bands == [c1, c2] && bands[..1] == [c1])
      && (!cfg.cone2Enabled && cfg.cone3Enabled ==> bands == [c1, c3] && bands[..1] == [c1])
      && (!cfg.cone2Enabled && !cfg.cone3Enabled ==> bands == [c1])
  {
    var bands := EnabledCones(cfg);
    if cfg.cone2Enabled && cfg.cone3Enabled {
      assert bands == [cfg.cone1, cfg.cone2, cfg.cone3];
      assert bands[..2] == [cfg.cone1, cfg.cone2];
    }
  }

  predicate IsConeTarget(e: Entity, a: Avatar, cfg: Config, inFront: (Entity, int) -> bool) {
    && IsOnScreen(e, a)
    && e.distance <= ConeCutoff(cfg)
    && inFront(e, ConeAngle(cfg, e.distance))
  }

  /** The loop over the candidates. */
  function Scan(objects: seq<Entity>, a: Avatar, enemyList: set<EntityId>, cfg: Config,
                inFront: (Entity, int) -> bool): (r: ObjectsList)
    ensures IsSubseq(r.targets, r.onScreen) && IsSubseq(r.close, r.onScreen)
    ensures IsSubseq(r.targets, objects) && IsSubseq(r.close, objects)
    ensures IsSubseq(r.enemy, objects) && IsSubseq(r.onScreen, objects)
    ensures forall e :: e in r.enemy <==> e in objects && InEnemyList(e, enemyList)
    ensures forall e :: e in r.onScreen <==> e in objects && IsOnScreen(e, a)
    ensures forall e :: e in r.close <==> e in objects && IsClose(e, a, cfg)
    ensures forall e :: e in r.targets <==> e in objects && IsConeTarget(e, a, cfg, inFront)
  {
    if |objects| == 0 then NoObjects
    else
      var e := objects[0];
      var rest := Scan(objects[1..], a, enemyList, cfg, inFront);
      assert objects == [e] + objects[1..];
      ObjectsList(
        if IsConeTarget(e, a, cfg, inFront) then [e] + rest.targets else rest.targets,
        if IsClose(e, a, cfg) then [e] + rest.close else rest.close,
        if InEnemyList(e, enemyList) then [e] + rest.enemy else rest.enemy,
        if IsOnScreen(e, a) then [e] + rest.onScreen else rest.onScreen)
  }

  /** `GetTargets`, without the write to the priority list (see `Plugin`). */
  function GetTargets(scene: Scene): (r: ObjectsList)
    ensures scene.player.None? ==> r == NoObjects
    ensures IsSubseq(r.targets, r.onScreen) && IsSubseq(r.close, r.onScreen)
    ensures IsSubseq(r.targets, scene.objects) && IsSubseq(r.close, scene.objects)
    ensures IsSubseq(r.enemy, scene.objects) && IsSubseq(r.onScreen, scene.objects)
    ensures scene.player.Some? ==>
      (forall e :: e in r.enemy <==> e in scene.objects && InEnemyList(e, scene.enemyList))
    ensures scene.player.Some? ==>
      (forall e :: e in r.onScreen <==> e in scene.objects && IsOnScreen(e, scene.player.value))
    ensures scene.player.Some? ==>
      (forall e :: e in r.close <==> e in scene.objects && IsClose(e, scene.player.value, scene.config))
    ensures scene.player.Some? ==>
      (forall e :: e in r.targets <==>
                   e in scene.objects && IsConeTarget(e, scene.player.value, scene.config, scene.inFront))
  {
    match scene.player
    case None => NoObjects
    case Some(a) => Scan(scene.objects, a, scene.enemyList, scene.config, scene.inFront)
  }

  /** Two objects the enemy-list test cannot tell apart: they may differ in
      everything the later filters read (targetable, director, distance,
      screen position, line of sight, health). */
  predicate SameEnemyIdentity(e1: Entity, e2: Entity) {
    e1.id == e2.id && e1.kind == e2.kind && e1.isLocalPlayer == e2.isLocalPlayer && e1.canAttack == e2.canAttack
  }

  lemma {:induction false} ScanEnemyIndependent(
    o1: seq<Entity>, a1: Avatar, cfg1: Config, f1: (Entity, int) -> bool,
    o2: seq<Entity>, a2: Avatar, cfg2: Config, f2: (Entity, int) -> bool,
    enemyList: set<EntityId>)
    requires |o1| == |o2|
    requires forall i :: 0 <= i < |o1| ==> SameEnemyIdentity(o1[i], o2[i])
    ensures Ids(Scan(o1, a1, enemyList, cfg1, f1).enemy) == Ids(Scan(o2, a2, enemyList, cfg2, f2).enemy)
    decreases |o1|
  {
    if |o1| > 0 {
      ScanEnemyIndependent(o1[1..], a1, cfg1, f1, o2[1..], a2, cfg2, f2, enemyList);
      var r1 := Scan(o1[1..], a1, enemyList, cfg1, f1).enemy;
      var r2 := Scan(o2[1..], a2, enemyList, cfg2, f2).enemy;
      assert InEnemyList(o1[0], enemyList) == InEnemyList(o2[0], enemyList);
      if InEnemyList(o1[0], enemyList) {
        IdsCons(o1[0], r1);
        IdsCons(o2[0], r2);
      }
    }
  }

  lemma IdsCons(e: Entity, es: seq<Entity>)
    ensures Ids([e] + es) == [e.id] + Ids(es)
  {
  }

  /** The enemy list is decided before any of the later filters run: a frame
      that differs only in what those filters read, or in the local player's
      instance, the configuration or the camera, yields the same enemy list. */
  lemma EnemyListIndependent(s1: Scene, s2: Scene)
    requires s1.player.Some? && s2.player.Some?
    requires s1.enemyList == s2.enemyList
    requires |s1.objects| == |s2.objects|
    requires forall i :: 0 <= i < |s1.objects| ==> SameEnemyIdentity(s1.objects[i], s2.objects[i])
    ensures Ids(GetTargets(s1).enemy) == Ids(GetTargets(s2).enemy)
  {
    ScanEnemyIndependent(s1.objects, s1.player.value, s1.config, s1.inFront,
                         s2.objects, s2.player.value, s2.config, s2.inFront, s1.enemyList);
  }
}
