/** Concrete frames passed to the entry points: nearest and lowest health
    on a two-object cone, and four presses of the cycle key on a three-object
    cone. */
module Scenarios {
  import opened Wrappers
  import opened Sequences
  import opened Entities
  import opened Classifier
  import opened Selection
  import opened Cycling
  import opened Plugin

  function Foe(id: EntityId, distance: int, hp: nat): Entity {
    Entity(id, BattleNpc, false, true, true, OtherHandler, 0, distance, true, true, hp)
  }

  /** One cone band of depth `depth`, no close circle, everything in front of
      the camera, no enemy list. */
  function Frame(objects: seq<Entity>, depth: int): Scene {
    Scene(objects, Some(Avatar(0)), {},
          Config(false, 0, Cone(depth, 30), false, Cone(0, 0), false, Cone(0, 0)),
          (e: Entity, angle: int) => true,
          (a: Entity, b: Entity) => 100)
  }

  const A := Foe(1, 3, 50)
  const B := Foe(2, 3, 10)
  const C := Foe(3, 40, 100)

  const NoTarget := TargetManager(None, None, None)

  /** The classification of A, B and C in a cone of the given depth. */
  lemma Classified(depth: int)
    requires 3 <= depth
    ensures GetTargets(Frame([A, B, C], depth)).onScreen == [A, B, C]
    ensures GetTargets(Frame([A, B, C], depth)).close == []
    ensures GetTargets(Frame([A, B, C], depth)).enemy == []
    ensures GetTargets(Frame([A, B, C], depth)).targets == if depth < 40 then [A, B] else [A, B, C]
  {
    var scene := Frame([A, B, C], depth);
    FrameFacts(depth);
    ScanOfBC(depth);
    assert [A, B, C][1..] == [B, C];
  }

  lemma ScanOfBC(depth: int)
    requires 3 <= depth
    ensures var scene := Frame([A, B, C], depth);
      Scan([B, C], scene.player.value, {}, scene.config, scene.inFront)
        == ObjectsList(if depth < 40 then [B] else [B, C], [], [], [B, C])
  {
    var scene := Frame([A, B, C], depth);
    var a, cfg, f := scene.player.value, scene.config, scene.inFront;
    FrameFacts(depth);
    assert [C][1..] == [];
    assert Scan([C], a, {}, cfg, f) == ObjectsList(if depth < 40 then [] else [C], [], [], [C]);
    assert [B, C][1..] == [C];
  }

  /** How each of A, B and C fares against the filters of the frame. */
  lemma FrameFacts(depth: int)
    requires 3 <= depth
    ensures var scene := Frame([A, B, C], depth);
      var a, cfg, f := scene.player.value, scene.config, scene.inFront;
      && IsOnScreen(A, a) && IsOnScreen(B, a) && IsOnScreen(C, a)
      && !IsClose(A, a, cfg) && !IsClose(B, a, cfg) && !IsClose(C, a, cfg)
      && !InEnemyList(A, {}) && !InEnemyList(B, {}) && !InEnemyList(C, {})
      && IsConeTarget(A, a, cfg, f) && IsConeTarget(B, a, cfg, f)
      && (IsConeTarget(C, a, cfg, f) <==> 40 <= depth)
  {
  }

  /** A and B are in an 8-unit cone, C is only on screen: lowest health picks
      B, nearest picks A, the earlier of the two equally near objects. */
  lemma NearestAndLowestHealth()
    ensures GetTargets(Frame([A, B, C], 8)).targets == [A, B]
    ensures GetTargets(Frame([A, B, C], 8)).onScreen == [A, B, C]
    ensures TargetLowestHealth(Initial, Frame([A, B, C], 8), NoTarget).targets.target == Some(B)
    ensures TargetClosest(Initial, Frame([A, B, C], 8), NoTarget, false).targets.target == Some(A)
  {
    Classified(8);
    var chain := [[A, B], [], [A, B, C], []];
    assert FirstNonEmpty(chain) == [A, B];
  }

  const Deep := Frame([A, B, C], 45)
  const Abc := [A, B, C]
  const Rotated := CycleState([1, 2, 3], [1, 2, 3])

  /** In the deep cone all three objects are cone targets. */
  lemma DeepCone()
    ensures Deep.player.Some? && GetTargets(Deep) == ObjectsList(Abc, [], [], Abc)
  {
    Classified(45);
  }

  /** A frame whose cone holds A, B and C and whose close circle is empty. */
  predicate ConeOfThree(scene: Scene) {
    scene.player.Some? && GetTargets(scene).targets == Abc && GetTargets(scene).close == []
  }

  /** The cycling candidates of such a frame: A, B and C, already in distance
      order. */
  lemma SortedCandidates()
    ensures SortByDistance(Union(Abc, [])) == Abc
    ensures Ids(Abc) == [1, 2, 3]
  {
    UnionOfAbc();
    SortOfAbc();
  }

  lemma UnionOfAbc()
    ensures Union(Abc, []) == Abc
  {
    DistinctFromOfUnique(Abc + [], {});
    assert Abc + [] == Abc;
  }

  lemma SortOfAbc()
    ensures SortByDistance(Abc) == Abc
  {
    assert Abc[1..] == [B, C];
    assert [B, C][1..] == [C];
    assert SortByDistance([C]) == [C];
    assert SortByDistance([B, C]) == [B, C];
  }

  /** The rotation step of the first press. */
  lemma FirstStep()
    ensures CycleStep(Cleared, Abc, 0) == Cycled(Rotated, Some(A))
  {
    assert Ids(Abc) == [1, 2, 3];
    assert 1 in Elems(Ids(Abc));
    var step := CycleStep(Cleared, Abc, 0);
    assert step.target.value.id == 1;
  }

  /** The position after `k` in A, B, C, wrapping after C. */
  function Next(k: nat): (j: nat)
    requires k < 3
    ensures j < 3 && j == (k + 1) % 3
  {
    if k == 2 then 0 else k + 1
  }

  /** The rotation step of a later press. */
  lemma NextStep(k: nat)
    requires k < 3
    ensures CycleStep(Rotated, Abc, Abc[k].id) == Cycled(Rotated, Some(Abc[Next(k)]))
  {
    var ids := [1, 2, 3];
    assert Ids(Abc) == ids;
    SettledStep(Rotated, Abc, ids[k]);
    IndexOfUnique(ids, k);
    assert Advance(ids, ids[k]) == Next(k);
    var step := CycleStep(Rotated, Abc, ids[k]);
    assert step.target.value.id == ids[Next(k)];
    assert step.target.value in Abc;
  }

  /** `n` targets going round A, B, C, starting after `Abc[k]`. */
  function Round(k: nat, n: nat): (r: seq<Option<Entity>>)
    requires k < 3
    ensures |r| == n
    decreases n
  {
    if n == 0 then [] else [Some(Abc[Next(k)])] + Round(Next(k), n - 1)
  }

  /** `Round` in closed form. */
  lemma {:induction false} RoundIsModular(k: nat, n: nat)
    requires k < 3
    ensures forall i :: 0 <= i < n ==> Round(k, n)[i] == Some(Abc[(k + 1 + i) % 3])
    decreases n
  {
    if n > 0 {
      RoundIsModular(Next(k), n - 1);
      forall i | 0 <= i < n
        ensures Round(k, n)[i] == Some(Abc[(k + 1 + i) % 3])
      {
        if i > 0 {
          assert Round(k, n)[i] == Round(Next(k), n - 1)[i - 1];
          ModStep(k, 3, i + 1);
        }
      }
    }
  }

  /** From the settled rotation at `Abc[k]`, the rotation walk continues
      round A, B, C from the object after it. */
  lemma {:induction false} LaterWalk(k: nat, n: nat)
    requires k < 3
    ensures Walk(Rotated, Abc, Abc[k].id, n) == Round(k, n)
    decreases n
  {
    if n > 0 {
      var j := Next(k);
      assert Walk(Rotated, Abc, Abc[k].id, n) == [Some(Abc[j])] + Walk(Rotated, Abc, Abc[j].id, n - 1) by {
        WalkCons(Rotated, Abc, Abc[k].id, n);
        NextStep(k);
      }
      LaterWalk(j, n - 1);
    }
  }

  /** In such a frame every press is a step of the rotation walk over A, B, C. */
  lemma PressesOfThree(scene: Scene, eng: Engine, tm: TargetManager, n: nat)
    requires ConeOfThree(scene)
    ensures Presses(eng, scene, tm, n) == Walk(eng.cycle, Abc, CurrentTargetId(tm), n)
  {
    SortedCandidates();
    PressesWalk(eng, scene, tm, n);
  }

  /** With A, B and C in the cone (in distance order) and neither a target nor
      a previous target, the key selects A, then B, then C, then A again, and
      so on. */
  lemma CycleThroughThree(scene: Scene, tm: TargetManager, n: nat)
    requires ConeOfThree(scene)
    requires tm.target.None? && tm.previous.None?
    ensures Presses(Initial, scene, tm, n) == Round(2, n)
  {
    PressesOfThree(scene, Initial, tm, n);
    WalkFromStart(n);
  }

  /** From the cleared state with nothing targeted, the walk starts at A and
      goes round. */
  lemma WalkFromStart(n: nat)
    ensures Walk(Cleared, Abc, 0, n) == Round(2, n)
  {
    if n > 0 {
      assert Walk(Cleared, Abc, 0, n) == [Some(A)] + Walk(Rotated, Abc, Abc[0].id, n - 1) by {
        WalkCons(Cleared, Abc, 0, n);
        FirstStep();
      }
      LaterWalk(0, n - 1);
      RoundAfterC(n);
    }
  }

  lemma RoundAfterC(n: nat)
    requires 0 < n
    ensures Round(2, n) == [Some(A)] + Round(0, n - 1)
  {
  }

  /** Four steps round A, B, C starting after C. */
  lemma RoundOfFour()
    ensures Round(2, 4) == [Some(A), Some(B), Some(C), Some(A)]
  {
    assert Round(2, 1) == [Some(A)];
    assert Round(0, 2) == [Some(B), Some(C)];
  }

  /** Four presses: A, B, C, then A again. */
  lemma FourPresses(scene: Scene, tm: TargetManager)
    requires ConeOfThree(scene)
    requires tm.target.None? && tm.previous.None?
    ensures Presses(Initial, scene, tm, 4) == [Some(A), Some(B), Some(C), Some(A)]
  {
    CycleThroughThree(scene, tm, 4);
    RoundOfFour();
  }

  /** The i-th press selects `Abc[i % 3]`. */
  lemma EveryPress(scene: Scene, tm: TargetManager, n: nat)
    requires ConeOfThree(scene)
    requires tm.target.None? && tm.previous.None?
    ensures forall i :: 0 <= i < n ==> Presses(Initial, scene, tm, n)[i] == Some(Abc[i % 3])
  {
    CycleThroughThree(scene, tm, n);
    RoundFromStart(n);
  }

  /** Three enemy-list objects off screen: D and E stand 3 apart, F is 20
      away from both. */
  const D := Foe(4, 10, 100).(onScreen := false)
  const E := Foe(5, 12, 100).(onScreen := false)
  const F := Foe(6, 30, 100).(onScreen := false)

  function Spread(a: Entity, b: Entity): int {
    if a.id in {4, 5} && b.id in {4, 5} then 3 else 20
  }

  function Roster(): Scene {
    Scene([D, E, F], Some(Avatar(0)), {4, 5, 6},
          Config(false, 0, Cone(8, 30), false, Cone(0, 0), false, Cone(0, 0)),
          (e: Entity, angle: int) => true, Spread)
  }

  lemma RosterClassified()
    ensures GetTargets(Roster()).enemy == [D, E, F]
  {
    var scene := Roster();
    var a := scene.player.value;
    assert [D, E, F][1..] == [E, F];
    assert [E, F][1..] == [F];
    assert [F][1..] == [];
    var rf := Scan([F], a, scene.enemyList, scene.config, scene.inFront);
    var re := Scan([E, F], a, scene.enemyList, scene.config, scene.inFront);
    assert rf.enemy == [F];
    assert re.enemy == [E, F];
  }

  /** D has a neighbour in range and F has none, so the best area target
      among D, E, F is never F. */
  lemma ClusterIndex()
    ensures BestAoeIndex([D, E, F], Spread) < 2
  {
    var pool := [D, E, F];
    var near := Neighbours(pool, 0, 0, Spread);
    assert 1 in near;
    assert forall k :: k in near ==> k == 1;
    assert near == {1};
    assert Neighbours(pool, 2, 0, Spread) == {};
    assert InRange(pool, 0, Spread) == 1;
    assert InRange(pool, 2, Spread) == 0;
  }

  /** With D, E and F on the enemy list, the area pick is D or E. */
  lemma AoePicksTheCluster(scene: Scene, tm: TargetManager)
    requires scene.player.Some? && scene.gap == Spread
    requires GetTargets(scene).enemy == [D, E, F]
    ensures TargetBestAOE(Initial, scene, tm).targets.target in {Some(D), Some(E)}
  {
    var l := GetTargets(scene);
    var chain := [l.enemy, l.targets, l.onScreen];
    assert FirstNonEmpty(chain) == [D, E, F];
    ClusterIndex();
  }

  lemma RoundFromStart(n: nat)
    ensures forall i :: 0 <= i < n ==> Round(2, n)[i] == Some(Abc[i % 3])
  {
    RoundIsModular(2, n);
    forall i | 0 <= i < n
      ensures Round(2, n)[i] == Some(Abc[i % 3])
    {
      ModAddN(i, 3);
      assert 2 + 1 + i == i + 3;
    }
  }
}
