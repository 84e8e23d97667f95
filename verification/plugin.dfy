/** The plugin's entry points (`TargetClosest`, `TargetLowestHealth`,
    `TargetBestAOE`, `CycleTargets`, `ClearLists`) as functions from the plugin
    state, one frame of the world and the game's target manager to the new
    plugin state and target manager. */
module Plugin {
  import opened Wrappers
  import opened Sequences
  import opened Entities
  import opened Classifier
  import opened Selection
  import opened Cycling

  /** The plugin's own fields: `GlobalPriorityTargets`, `LastConeTargets` and
      `CyclingTargets`. */
  datatype Engine = Engine(priority: seq<Entity>, cycle: CycleState)

  const Initial := Engine([], Cleared)

  /** `TargetManager`: the hard target, the previous target and the soft target. */
  datatype TargetManager = TargetManager(target: Option<Entity>, previous: Option<Entity>, soft: Option<Entity>)

  datatype Outcome = Outcome(engine: Engine, targets: TargetManager)

  /** Clears the soft target and makes `target` (possibly none) the hard target.
      The game's bookkeeping of the previous target is not modelled. */
  function SetTarget(tm: TargetManager, target: Option<Entity>): (r: TargetManager)
    ensures r.soft.None? && r.target == target && r.previous == tm.previous
  {
    tm.(soft := None, target := target)
  }

  /** `GetTargets` together with its write of the cone list to
      `GlobalPriorityTargets`, which happens only when there is a player. */
  function Refresh(eng: Engine, scene: Scene): (r: (Engine, ObjectsList))
    ensures r.1 == GetTargets(scene)
    ensures scene.player.None? ==> r.0 == eng
    ensures scene.player.Some? ==> r.0 == eng.(priority := r.1.targets)
  {
    var l := GetTargets(scene);
    if scene.player.None? then (eng, l) else (eng.(priority := l.targets), l)
  }

  function TargetClosest(eng: Engine, scene: Scene, tm: TargetManager, lowestHealth: bool): (r: Outcome)
    ensures scene.player.None? ==> r == Outcome(eng, tm)
    ensures scene.player.Some? ==> r.engine == eng.(priority := GetTargets(scene).targets)
    ensures scene.player.Some? ==>
      var l := GetTargets(scene);
      var pool := FirstNonEmpty([l.targets, l.close, l.onScreen, l.enemy]);
      && (|pool| == 0 ==> r.targets == tm)
      && (|pool| > 0 ==> r.targets == SetTarget(tm, Some(pool[PickIndex(pool, lowestHealth)])))
  {
    if scene.player.None? then Outcome(eng, tm)
    else
      var (eng', l) := Refresh(eng, scene);
      var priorityTargets := if |eng'.priority| > 0 then eng'.priority else l.close;
      var pool :=
        if |priorityTargets| > 0 then priorityTargets
        else if |l.onScreen| > 0 then l.onScreen
        else l.enemy;
      var chain := [l.targets, l.close, l.onScreen, l.enemy];
      assert chain[0] == l.targets && chain[1] == l.close && chain[2] == l.onScreen && chain[3] == l.enemy;
      if |pool| == 0 then Outcome(eng', tm)
      else Outcome(eng', SetTarget(tm, Some(pool[PickIndex(pool, lowestHealth)])))
  }

  /** `TargetClosest(true)`: the pool member with the least health, the
      nearest of those, the earliest in the pool of those. */
  function TargetLowestHealth(eng: Engine, scene: Scene, tm: TargetManager): (r: Outcome)
    ensures scene.player.None? ==> r == Outcome(eng, tm)
    ensures scene.player.Some? ==> r.engine == eng.(priority := GetTargets(scene).targets)
    ensures scene.player.Some? ==>
      var l := GetTargets(scene);
      var pool := FirstNonEmpty([l.targets, l.close, l.onScreen, l.enemy]);
      && (|pool| == 0 ==> r.targets == tm)
      && (|pool| > 0 ==>
        exists k :: 0 <= k < |pool| && r.targets == SetTarget(tm, Some(pool[k])) &&
          (forall j :: 0 <= j < |pool| ==> pool[k].hp <= pool[j].hp) &&
          (forall j :: 0 <= j < |pool| && pool[j].hp == pool[k].hp ==> pool[k].distance <= pool[j].distance) &&
          (forall j :: 0 <= j < k ==>
             pool[k].hp < pool[j].hp || (pool[k].hp == pool[j].hp && pool[k].distance < pool[j].distance)))
  {
    TargetClosest(eng, scene, tm, true)
  }

  /** Builds the `AOETarget` list of one pool and takes its best entry. */
  function AoePick(pool: seq<Entity>, gap: (Entity, Entity) -> int): (r: Option<Entity>)
    ensures r.None? <==> |pool| == 0
    ensures r.Some? ==> r == Some(pool[BestAoeIndex(pool, gap)])
  {
    if |pool| == 0 then None else Some(pool[BestAoeIndex(pool, gap)])
  }

  function TargetBestAOE(eng: Engine, scene: Scene, tm: TargetManager): (r: Outcome)
    ensures scene.player.None? ==> r == Outcome(eng, tm)
    ensures scene.player.Some? ==> r.engine == eng.(priority := GetTargets(scene).targets)
    ensures scene.player.Some? ==>
      var l := GetTargets(scene);
      var pool := FirstNonEmpty([l.enemy, l.targets, l.onScreen]);
      && (|pool| == 0 ==> r.targets == tm)
      && (|pool| > 0 ==> r.targets == SetTarget(tm, Some(pool[BestAoeIndex(pool, scene.gap)])))
  {
    if scene.player.None? then Outcome(eng, tm)
    else
      var (eng', l) := Refresh(eng, scene);
      var chain := [l.enemy, l.targets, l.onScreen];
      assert chain[0] == l.enemy && chain[1] == l.targets && chain[2] == l.onScreen;
      var fromEnemyList := AoePick(l.enemy, scene.gap);
      if fromEnemyList.Some? then Outcome(eng', SetTarget(tm, fromEnemyList))
      else
        var fromCone := AoePick(l.targets, scene.gap);
        if fromCone.Some? then Outcome(eng', SetTarget(tm, fromCone))
        else
          var fromScreen := AoePick(l.onScreen, scene.gap);
          if fromScreen.Some? then Outcome(eng', SetTarget(tm, fromScreen))
          else Outcome(eng', tm)
  }

  /** `Target?.EntityId ?? PreviousTarget?.EntityId ?? 0`. */
  function CurrentTargetId(tm: TargetManager): (id: EntityId)
    ensures tm.target.Some? ==> id == tm.target.value.id
    ensures tm.target.None? && tm.previous.Some? ==> id == tm.previous.value.id
    ensures tm.target.None? && tm.previous.None? ==> id == 0
  {
    if tm.target.Some? then tm.target.value.id
    else if tm.previous.Some? then tm.previous.value.id
    else 0
  }

  /** Every cone or close-circle target is also on screen, so the cycling
      candidates are empty whenever the on-screen list is. */
  lemma AllTargetsOnScreen(scene: Scene)
    ensures var l := GetTargets(scene);
      Elems(Union(l.targets, l.close)) <= Elems(l.onScreen)
  {
    var l := GetTargets(scene);
    SubseqElems(l.targets, l.onScreen);
    SubseqElems(l.close, l.onScreen);
    ElemsAppend(l.targets, l.close);
  }

  /** Every entry of the sorted candidate list is on screen. */
  lemma CandidatesOnScreen(scene: Scene)
    ensures var l := GetTargets(scene);
      forall e :: e in SortByDistance(Union(l.targets, l.close)) ==> e in l.onScreen
  {
    var l := GetTargets(scene);
    var all := Union(l.targets, l.close);
    AllTargetsOnScreen(scene);
    forall e | e in SortByDistance(all)
      ensures e in l.onScreen
    {
      assert e in multiset(all);
      assert e in Elems(all);
    }
  }

  function CycleTargets(eng: Engine, scene: Scene, tm: TargetManager): (r: Outcome)
    ensures scene.player.None? ==> r == Outcome(eng, tm)
    ensures scene.player.Some? ==> r.engine.priority == GetTargets(scene).targets
    ensures scene.player.Some? ==>
      var l := GetTargets(scene);
      |l.enemy| == 0 && |l.onScreen| == 0 ==> r == Outcome(eng.(priority := l.targets), tm)
    ensures scene.player.Some? ==>
      var l := GetTargets(scene);
      var all := Union(l.targets, l.close);
      |all| == 0 && (|l.enemy| > 0 || |l.onScreen| > 0) ==>
        r.engine.cycle == CycleState([], eng.cycle.cycling) && r.targets == tm
    ensures scene.player.Some? ==>
      var l := GetTargets(scene);
      var all := Union(l.targets, l.close);
      |all| > 0 ==>
        var step := CycleStep(eng.cycle, SortByDistance(all), CurrentTargetId(tm));
        && r.engine.cycle == step.state
        && r.targets == SetTarget(tm, step.target)
        && r.targets.target.Some?
        && r.targets.target.value in l.onScreen
  {
    if scene.player.None? then Outcome(eng, tm)
    else
      var (eng', l) := Refresh(eng, scene);
      var all := Union(l.targets, l.close);
      AllTargetsOnScreen(scene);
      if |l.enemy| == 0 && |l.onScreen| == 0 && |all| == 0 then Outcome(eng', tm)
      else if |all| > 0 then
        var sorted := SortByDistance(all);
        var step := CycleStep(eng'.cycle, sorted, CurrentTargetId(tm));
        assert step.target.value in multiset(all);
        assert step.target.value in Elems(all);
        Outcome(eng'.(cycle := step.state), SetTarget(tm, step.target))
      else
        Outcome(eng'.(cycle := eng'.cycle.(lastCone := [])), tm)
  }

  /** Presses the cycle key `n` times in the same frame, each press starting
      from the state and target the previous one left. */
  function Presses(eng: Engine, scene: Scene, tm: TargetManager, n: nat): (r: seq<Option<Entity>>)
    ensures |r| == n
    decreases n
  {
    if n == 0 then []
    else
      var o := CycleTargets(eng, scene, tm);
      [o.targets.target] + Presses(o.engine, scene, o.targets, n - 1)
  }

  /** While there are candidates, a press takes one rotation step from the
      current target. */
  lemma PressStep(eng: Engine, scene: Scene, tm: TargetManager)
    requires scene.player.Some?
    requires |Union(GetTargets(scene).targets, GetTargets(scene).close)| > 0
    ensures var l := GetTargets(scene);
      var sorted := SortByDistance(Union(l.targets, l.close));
      var step := CycleStep(eng.cycle, sorted, CurrentTargetId(tm));
      var o := CycleTargets(eng, scene, tm);
      && o.engine.cycle == step.state
      && o.targets.target == step.target
      && CurrentTargetId(o.targets) == step.target.value.id
  {
  }

  /** So repeated presses at an unchanged frame with candidates are the
      rotation walk of `Cycling`. */
  lemma {:induction false} PressesWalk(eng: Engine, scene: Scene, tm: TargetManager, n: nat)
    requires scene.player.Some?
    requires |Union(GetTargets(scene).targets, GetTargets(scene).close)| > 0
    ensures var l := GetTargets(scene);
      Presses(eng, scene, tm, n)
        == Walk(eng.cycle, SortByDistance(Union(l.targets, l.close)), CurrentTargetId(tm), n)
    decreases n
  {
    if n > 0 {
      var o := CycleTargets(eng, scene, tm);
      PressStep(eng, scene, tm);
      PressesWalk(o.engine, scene, o.targets, n - 1);
    }
  }

  /** Once the remembered cone matches the candidates, as many presses at an
      unchanged frame as there are distinct candidate ids target each of them
      exactly once, and the press after that targets the first one again. */
  lemma SettledRound(eng: Engine, scene: Scene, tm: TargetManager)
    requires scene.player.Some?
    requires |Union(GetTargets(scene).targets, GetTargets(scene).close)| > 0
    requires var l := GetTargets(scene);
      Elems(eng.cycle.lastCone) == Elems(Ids(SortByDistance(Union(l.targets, l.close))))
    ensures var l := GetTargets(scene);
      var candidates := Elems(Ids(SortByDistance(Union(l.targets, l.close))));
      var v := Presses(eng, scene, tm, |candidates| + 1);
      && (forall i :: 0 <= i < |v| ==> v[i].Some? && v[i].value in l.onScreen)
      && Unique(TargetIds(v)[..|candidates|])
      && Elems(TargetIds(v)[..|candidates|]) == candidates
      && v[|candidates|] == v[0]
  {
    var l := GetTargets(scene);
    var sorted := SortByDistance(Union(l.targets, l.close));
    var n := |Elems(Ids(sorted))|;
    var v := Presses(eng, scene, tm, n + 1);
    assert v == Walk(eng.cycle, sorted, CurrentTargetId(tm), n + 1) by {
      PressesWalk(eng, scene, tm, n + 1);
    }
    CandidatesOnScreen(scene);
    WalkOnScreen(v, eng.cycle, sorted, CurrentTargetId(tm), l.onScreen);
  }

  /** `WalkGoesRound` for a walk over candidates that are all on screen. */
  lemma WalkOnScreen(v: seq<Option<Entity>>, st: CycleState, sorted: seq<Entity>, current: EntityId, onScreen: seq<Entity>)
    requires |sorted| > 0 && Elems(st.lastCone) == Elems(Ids(sorted))
    requires v == Walk(st, sorted, current, |Elems(Ids(sorted))| + 1)
    requires forall e :: e in sorted ==> e in onScreen
    ensures var n := |Elems(Ids(sorted))|;
      && (forall i :: 0 <= i < |v| ==> v[i].Some? && v[i].value in onScreen)
      && Unique(TargetIds(v)[..n])
      && Elems(TargetIds(v)[..n]) == Elems(Ids(sorted))
      && v[n] == v[0]
  {
    WalkGoesRound(st, sorted, current);
  }

  /** From the second press on at an unchanged frame with candidates, whatever
      the state before the first press, the presses go round the candidates
      once each and then start again. */
  lemma FullRotation(eng: Engine, scene: Scene, tm: TargetManager)
    requires scene.player.Some?
    requires |Union(GetTargets(scene).targets, GetTargets(scene).close)| > 0
    ensures var l := GetTargets(scene);
      var candidates := Elems(Ids(SortByDistance(Union(l.targets, l.close))));
      var first := CycleTargets(eng, scene, tm);
      var v := Presses(first.engine, scene, first.targets, |candidates| + 1);
      && (forall i :: 0 <= i < |v| ==> v[i].Some? && v[i].value in l.onScreen)
      && Unique(TargetIds(v)[..|candidates|])
      && Elems(TargetIds(v)[..|candidates|]) == candidates
      && v[|candidates|] == v[0]
  {
    var first := CycleTargets(eng, scene, tm);
    PressStep(eng, scene, tm);
    SettledRound(first.engine, scene, first.targets);
  }

  /** On a zone change both cycling lists are emptied; the priority list is
      left alone. */
  function ClearLists(eng: Engine, territory: nat): (r: Engine)
    ensures r.cycle.lastCone == [] && r.cycle.cycling == []
    ensures r.priority == eng.priority
  {
    eng.(cycle := Cleared)
  }

  /** After a zone change the next cycling call behaves exactly like the very
      first one: it starts a fresh rotation in distance order. */
  lemma ClearListsRestarts(eng: Engine, territory: nat, scene: Scene, tm: TargetManager)
    requires scene.player.Some?
    ensures CycleTargets(ClearLists(eng, territory), scene, tm) == CycleTargets(Initial, scene, tm)
    ensures var l := GetTargets(scene);
      var sorted := SortByDistance(Union(l.targets, l.close));
      var ids := Ids(sorted);
      |sorted| > 0 ==>
        && CycleTargets(ClearLists(eng, territory), scene, tm).engine.cycle == CycleState(ids, ids)
        && CycleTargets(ClearLists(eng, territory), scene, tm).targets.target.value.id
           == ids[Advance(ids, CurrentTargetId(tm))]
  {
    var l := GetTargets(scene);
    var sorted := SortByDistance(Union(l.targets, l.close));
    if |sorted| > 0 {
      assert sorted[0].id in Elems(Ids(sorted));
    }
  }
}
