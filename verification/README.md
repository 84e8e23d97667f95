# Better Targeting System — the targeting core in Dafny

The plugin replaces the game's tab targeting with four key-bound strategies:
cycle through the enemies in a frontal cone and a close circle, pick the
nearest enemy, pick the one with the lowest health, or pick the one with the
most neighbours for an area attack. All four start from one classification of
the object table into four lists (cone targets, close targets, enemy-list
targets, on-screen targets). The plugin remembers the last cone it cycled
through and a rotation order between key presses, and forgets both on a zone
change.

The model is a set of pure functions over one frame of the world:

- `Entities` — an object of the object table, the local player, the cone
  configuration, and the `Scene`. A `Scene` carries every game query the core
  makes: the kind and attackability of each object, whether it is targetable,
  its distance and screen position, line of sight, health, and the enemy-list
  ids. The camera-cone test and the object-to-object distance are total
  functions carried by the scene.
- `Sequences` — the LINQ operators the core relies on (`Distinct`, `Union`,
  `Intersect`, `FindIndex`), with their first-occurrence order.
- `Ranking` — `OrderBy(..).ThenBy(..).First()` as the earliest lexicographic
  minimum.
- `Classifier` — `GetTargets`: the filters in source order, the close circle,
  and the three cone bands.
- `Selection` — the fallback chains, the nearest / lowest-health choice, and
  the area-attack neighbour count.
- `Cycling` — the stable distance sort, the rotation bookkeeping
  (`LastConeTargets`, `CyclingTargets`) and the wrap-around to the next target.
- `Plugin` — the entry points `TargetClosest`, `TargetLowestHealth`,
  `TargetBestAOE`, `CycleTargets`, `ClearLists` and `SetTarget`. They map the
  plugin state (`Engine`), a `Scene` and the game's target manager to the new
  state and target manager.

Distances are integers: the model only compares them with each other and with
the configured thresholds. Objects are compared by value, and an area-attack
candidate is identified by its position in its pool.

Two points of the code are worth spelling out:

- The union of cone and close targets (Plugin.cs:330) removes duplicates by
  object equality, not by identifier. Two different objects that share an id
  therefore both stay in the candidate list.
- The comment at Plugin.cs:179 says the priority list is read first. But
  `GetTargets` has just overwritten that list with the current cone list
  (line 502), so the first pool is always the current cone.

## Model

| member | source | states |
|---|---|---|
| Classifier.GetTargets | BetterTargetingSystem/Plugin.cs:385-505 | With no local player all four lists are empty. Otherwise each list holds exactly the table objects that pass its filters, in table order. The cone and close lists are sub-sequences of the on-screen list. |
| Classifier.Scan | BetterTargetingSystem/Plugin.cs:407-499 | Exactly the candidate objects (battle NPCs and players, not the local player, attackable) are considered. The enemy list holds those whose id the addon shows. The on-screen list adds: targetable, not in another party's treasure hunt or leve, within 49, on screen, in line of sight. Close adds the enabled circle (`distance < radius`); cone adds the cutoff and the camera-cone test. |
| Classifier.ConeCutoff | BetterTargetingSystem/Plugin.cs:464-476 | The cutoff is the distance of the outermost enabled cone band. |
| Classifier.ConeAngle | BetterTargetingSystem/Plugin.cs:478-493 | The nested tests pick the same angle as the band rule "the next band outward applies once the distance exceeds the inner band's threshold". Spelled out for the one- and two-band configurations. |
| Classifier.EnemyListIndependent | BetterTargetingSystem/Plugin.cs:416-420 | The enemy list is decided before any later filter runs. Two frames with the same enemy-list ids and the same candidates yield the same enemy list, whatever their targetability, instance, distance, screen position, line of sight, configuration or camera. |
| Selection.FirstNonEmpty | BetterTargetingSystem/Plugin.cs:181-186 | The chosen pool is empty only when every pool of the chain is. Otherwise it is one of the pools, and every pool before it is empty. |
| Selection.PickIndex | BetterTargetingSystem/Plugin.cs:191-194 | Nearest: no pool member is nearer, and every earlier member is strictly farther. Lowest health: no member has less health, no member with the same health is nearer, and every earlier member is strictly worse on (health, distance). |
| Selection.InRange | BetterTargetingSystem/Plugin.cs:223-233 | A member's count is the number of OTHER members of the same pool whose distance to it is at most 5, and is at most the pool size minus one. |
| Selection.BestAoeIndex | BetterTargetingSystem/Plugin.cs:241-244 | The chosen member has the most neighbours. Among members with as many, it has the most health. Every earlier member is strictly worse on (neighbours, health). |
| Ranking.FirstMin | BetterTargetingSystem/Plugin.cs:192-194 | `OrderBy(..).ThenBy(..).First()` returns a position with no strictly smaller key, before which every key is strictly larger. |
| Ranking.FirstMinIsUnique | BetterTargetingSystem/Plugin.cs:192-194 | Those two properties determine the position: a stable sort can move only one element to the front. |
| Cycling.SortByDistance | BetterTargetingSystem/Plugin.cs:343 | The cycling candidates are sorted by distance and are a permutation of the input. |
| Cycling.SortIsStable | BetterTargetingSystem/Plugin.cs:343 | The sort is stable: objects at the same distance keep their relative order. |
| Cycling.Advance | BetterTargetingSystem/Plugin.cs:360-362 | The next position is the one after the current target's first occurrence, wrapping from the last back to the first. It is the first position when the current target is not in the order. |
| Cycling.FindById | BetterTargetingSystem/Plugin.cs:362 | `Find` by id yields nothing exactly when no object has the id. Otherwise it yields the first object with that id. |
| Cycling.Rotation | BetterTargetingSystem/Plugin.cs:355-359 | The updated rotation holds every current candidate id exactly once and nothing else. |
| Cycling.RotationKeepsOrder | BetterTargetingSystem/Plugin.cs:355-359 | Ids already in the rotation keep their order. Newcomers are appended in distance order. |
| Cycling.RotationStable | BetterTargetingSystem/Plugin.cs:348-359 | When the candidates are those of the rotation, the rotation is left exactly as it was. |
| Cycling.CycleStep | BetterTargetingSystem/Plugin.cs:341-377 | A target is always found among the candidates, and it is the rotation entry after the current one. Both lists then hold exactly the candidate ids. For the same cone, the remembered cone is kept and the rotation has no repeats. For a different cone, both lists restart as the candidate ids in distance order. |
| Cycling.StepKeepsOrder | BetterTargetingSystem/Plugin.cs:355-359 | For the same cone, the new rotation is the old rotation's surviving ids in their old order, followed by the newcomers in distance order. |
| Cycling.StepFound | BetterTargetingSystem/Plugin.cs:362 | The step's target is the first candidate carrying the chosen id. |
| Cycling.StepSettles | BetterTargetingSystem/Plugin.cs:341-377 | After one step for the same candidates (or candidates with distinct ids), the state is settled: later steps see the same cone. |
| Cycling.SettledStep | BetterTargetingSystem/Plugin.cs:348-362 | A settled state does not change on a further press, and the target moves to the next rotation entry. |
| Cycling.WalkFollowsOrbit | BetterTargetingSystem/Plugin.cs:348-362 | Repeated steps from a settled state, each starting from the target the previous one chose, walk the rotation order step by step. |
| Cycling.OrbitRotates | BetterTargetingSystem/Plugin.cs:360-362 | The m-th step of that walk is the rotation entry m places after the start, modulo the rotation length. |
| Cycling.OrbitCoversOnce | BetterTargetingSystem/Plugin.cs:360-362 | As many steps as the rotation has entries visit every entry exactly once. The next step returns to the first. |
| Cycling.WalkGoesRound | BetterTargetingSystem/Plugin.cs:341-377 | Once the remembered cone matches the candidates, as many steps as there are distinct candidate ids target each id exactly once. Every target is a candidate, and the next step targets the first one again. |
| Sequences.DistinctFrom | BetterTargetingSystem/Plugin.cs:330 | The de-duplication behind `Union` keeps every element not already seen, once each, as a subsequence of the input. |
| Sequences.DistinctFromInOrder | BetterTargetingSystem/Plugin.cs:330 | The kept elements appear in the order of their first occurrence in the input. |
| Sequences.Union | BetterTargetingSystem/Plugin.cs:330 | `a.Union(b)` has no repeats and holds exactly the elements of `a` and `b`, in order of first occurrence in `a` followed by `b`. |
| Sequences.Intersect | BetterTargetingSystem/Plugin.cs:359 | `a.Intersect(b)` has no repeats and holds exactly the elements common to `a` and `b`, in order of first occurrence in `a`. |
| Sequences.IndexOf | BetterTargetingSystem/Plugin.cs:360 | `FindIndex` is -1 exactly when the element is absent. Otherwise it is the element's first position. |
| Plugin.SetTarget | BetterTargetingSystem/Plugin.cs:163-167 | The soft target is cleared and the hard target replaced. The previous target is the game's and is left alone. |
| Plugin.TargetClosest | BetterTargetingSystem/Plugin.cs:171-197 | Without a player nothing changes. Otherwise the priority list becomes the cone list, and the pool is the first non-empty list of cone, close, on-screen, enemy-list. The target becomes the pool's nearest (or lowest-health) member, and is left alone when the pool is empty. |
| Plugin.Refresh | BetterTargetingSystem/Plugin.cs:385-505 | The four lists are those of `GetTargets`. The priority list becomes the cone list exactly when there is a player (line 502); otherwise the state is unchanged. |
| Plugin.CurrentTargetId | BetterTargetingSystem/Plugin.cs:336-338 | The id is the target's, else the previous target's, else 0. |
| Plugin.TargetLowestHealth | BetterTargetingSystem/Plugin.cs:169-197 | Without a player nothing changes. Otherwise the priority list becomes the cone list. With an empty pool the target is left alone. Otherwise the soft target is cleared and the hard target becomes a pool member with the least health, the nearest of those, with every earlier member strictly worse on (health, distance). |
| Plugin.AoePick | BetterTargetingSystem/Plugin.cs:239-251 | A pool yields no pick exactly when it is empty. Otherwise the pick is its member with the most neighbours, then the most health. |
| Plugin.TargetBestAOE | BetterTargetingSystem/Plugin.cs:208-317 | Without a player nothing changes. Otherwise the pool is the first non-empty list of enemy-list, cone, on-screen, and the target becomes its member with the most neighbours, then the most health. It is left alone when all three are empty. |
| Plugin.AllTargetsOnScreen | BetterTargetingSystem/Plugin.cs:330-333 | Every cone or close target is on screen, so the early return's third test is implied by the second. |
| Plugin.CycleTargets | BetterTargetingSystem/Plugin.cs:319-382 | Without a player nothing changes. With no enemy-list and no on-screen object only the priority list changes. With no cone or close target, only the remembered cone is emptied. Otherwise the candidates are sorted by distance and one rotation step is taken; the new target is an on-screen object. |
| Plugin.PressStep | BetterTargetingSystem/Plugin.cs:341-377 | With candidates, one press takes one rotation step from the current target id and targets the step's choice. |
| Plugin.PressesWalk | BetterTargetingSystem/Plugin.cs:319-377 | Repeated presses at an unchanged frame with candidates are the rotation walk of repeated steps. |
| Plugin.SettledRound | BetterTargetingSystem/Plugin.cs:319-377 | Once the remembered cone matches the candidates, as many presses as there are distinct candidate ids target each of them exactly once, all on screen, and the next press targets the first one again. |
| Plugin.FullRotation | BetterTargetingSystem/Plugin.cs:319-377 | In any frame with candidates and from any state, the presses after the first one go round every candidate id exactly once, all on screen, and then start again. |
| Plugin.ClearLists | BetterTargetingSystem/Plugin.cs:113-118 | Both cycling lists are emptied and the priority list is left alone. |
| Plugin.ClearListsRestarts | BetterTargetingSystem/Plugin.cs:113-118 | After a zone change the next cycle press behaves exactly like the first press of a session: it restarts the rotation in distance order, from the entry after the current target. |
| Scenarios.Classified | BetterTargetingSystem/Plugin.cs:416-498 | A frame with A and B at distance 3 and C at 40, all visible: all three are on screen. A and B are cone targets. C is a cone target exactly when the single cone reaches 40. |
| Scenarios.NearestAndLowestHealth | BetterTargetingSystem/Plugin.cs:171-197 | With A (health 50) and B (health 10), both at distance 3, in the cone: lowest health picks B. Nearest picks A, the earlier of the two equally near objects. |
| Scenarios.CycleThroughThree | BetterTargetingSystem/Plugin.cs:319-377 | In any frame whose cone holds exactly A, B, C, with nothing targeted before: repeated presses go round A, B, C from the start. |
| Scenarios.FourPresses | BetterTargetingSystem/Plugin.cs:319-377 | Four presses select A, B, C, then A again. |
| Scenarios.EveryPress | BetterTargetingSystem/Plugin.cs:319-377 | The i-th press selects the (i mod 3)-th of A, B, C. |
| Scenarios.AoePicksTheCluster | BetterTargetingSystem/Plugin.cs:219-251 | Take three enemy-list objects: two stand 3 apart and the third is 20 away from both. The area pick is one of the two close ones. |

## Left out

- The frame update loop, key bindings and key-state handling (lines 122-161): they only dispatch to the entry points above.
- The configuration and help windows, chat commands, logging and configuration persistence: user interface, no targeting logic.
- The game queries themselves (`CanAttack`, `IsInLineOfSight`, `IsInFrontOfCamera`, `DistanceBetweenObjects`, the enemy-list addon, `WorldToScreenPoint` / `WorldToScreen` with the screen size) are foreign calls. They become fields of `Entity` and functions of `Scene`, fixed for one frame.
- Object identity: objects are values. Two table objects that agree in every modelled field are one object for `Union` and for the filters. The source could tell them apart by reference.
- Objects whose native data is missing (line 423): the source skips them after the enemy-list test. Every object in the model has native data.
- Floating-point distances: distances are integers, because the model only compares them.
- The previous target: the game maintains it, so `SetTarget` leaves it unchanged.
- `LastConeTargets` holds a lazily evaluated projection of the sorted list in the source. That list is never mutated afterwards, so the model stores the ids eagerly.
- `GPose` and text-input suppression: the plugin simply does nothing in those states.
- Plugin.TargetLowestHealth: the source sorts on a nullable health that would put objects without health first. Battle NPCs and players always have health, so the model uses plain health.
