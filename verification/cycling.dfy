/** The tab-target rotation of `CycleTargets`: the two lists kept between calls
    (`LastConeTargets`, `CyclingTargets`) and the step taken on one call once the
    candidates (cone and close-circle targets) have been sorted by distance. */
module Cycling {
  import opened Wrappers
  import opened Sequences
  import opened Entities

  /** `LastConeTargets` and `CyclingTargets`. */
  datatype CycleState = CycleState(lastCone: seq<EntityId>, cycling: seq<EntityId>)

  /** The state at start-up and after a zone change. */
  const Cleared := CycleState([], [])

  /** The result of one step: the new state and the argument passed to `SetTarget`. */
  datatype Cycled = Cycled(state: CycleState, target: Option<Entity>)

  predicate SortedByDistance(s: seq<Entity>) {
    forall i, j :: 0 <= i < j < |s| ==> s[i].distance <= s[j].distance
  }

  /** The members of `s` at exactly `d`, in order. */
  function AtDistance(s: seq<Entity>, d: int): seq<Entity> {
    if |s| == 0 then []
    else (if s[0].distance == d then [s[0]] else []) + AtDistance(s[1..], d)
  }

  function InsertByDistance(e: Entity, sorted: seq<Entity>): (r: seq<Entity>)
    requires SortedByDistance(sorted)
    ensures SortedByDistance(r)
    ensures multiset(r) == multiset(sorted) + multiset{e}
    ensures forall x :: x in r ==> x == e || x in sorted
  {
    if |sorted| == 0 || e.distance <= sorted[0].distance then
      ConsSorted(e, sorted);
      [e] + sorted
    else
      var head, tail := sorted[0], sorted[1..];
      assert sorted == [head] + tail;
      var rest := InsertByDistance(e, tail);
      HeadIsNearest(sorted);
      assert forall x :: x in rest ==> head.distance <= x.distance;
      ConsSorted(head, rest);
      [head] + rest
  }

  /** The head of a sorted list is no farther than anything after it. */
  lemma HeadIsNearest(sorted: seq<Entity>)
    requires |sorted| > 0 && SortedByDistance(sorted)
    ensures forall x :: x in sorted ==> sorted[0].distance <= x.distance
  {
  }

  /** Putting an object no farther than any member in front keeps a list sorted. */
  lemma ConsSorted(head: Entity, s: seq<Entity>)
    requires SortedByDistance(s)
    requires forall x :: x in s ==> head.distance <= x.distance
    ensures SortedByDistance([head] + s)
  {
    var r := [head] + s;
    forall i, j | 0 <= i < j < |r|
      ensures r[i].distance <= r[j].distance
    {
      assert r[j] == s[j - 1];
      if i > 0 {
        assert r[i] == s[i - 1];
      } else {
        assert s[j - 1] in s;
      }
    }
  }

  /** `OrderBy(distance)`: LINQ's sort is stable. */
  function SortByDistance(s: seq<Entity>): (r: seq<Entity>)
    ensures SortedByDistance(r)
    ensures multiset(r) == multiset(s)
  {
    if |s| == 0 then []
    else
      assert s == [s[0]] + s[1..];
      InsertByDistance(s[0], SortByDistance(s[1..]))
  }

  lemma {:induction false} InsertKeepsTies(e: Entity, sorted: seq<Entity>, d: int)
    requires SortedByDistance(sorted)
    ensures AtDistance(InsertByDistance(e, sorted), d) ==
            (if e.distance == d then [e] else []) + AtDistance(sorted, d)
    decreases |sorted|
  {
    if |sorted| == 0 || e.distance <= sorted[0].distance {
      AtDistanceCons(e, sorted, d);
    } else {
      var head, tail := sorted[0], sorted[1..];
      var rest := InsertByDistance(e, tail);
      assert InsertByDistance(e, sorted) == [head] + rest;
      assert sorted == [head] + tail;
      InsertKeepsTies(e, tail, d);
      TiesPastHead(e, head, tail, rest, d);
    }
  }

  /** Inserting `e` past a strictly nearer `head` leaves `head`'s place among
      the objects at distance `d` alone. */
  lemma TiesPastHead(e: Entity, head: Entity, tail: seq<Entity>, rest: seq<Entity>, d: int)
    requires head.distance < e.distance
    requires AtDistance(rest, d) == (if e.distance == d then [e] else []) + AtDistance(tail, d)
    ensures AtDistance([head] + rest, d) == (if e.distance == d then [e] else []) + AtDistance([head] + tail, d)
  {
    AtDistanceCons(head, rest, d);
    AtDistanceCons(head, tail, d);
    if head.distance == d {
      assert e.distance != d;
    }
  }

  lemma AtDistanceCons(x: Entity, s: seq<Entity>, d: int)
    ensures AtDistance([x] + s, d) == (if x.distance == d then [x] else []) + AtDistance(s, d)
  {
    assert ([x] + s)[1..] == s;
  }

  /** Stability: objects at the same distance keep their relative order. */
  lemma {:induction false} SortIsStable(s: seq<Entity>, d: int)
    ensures AtDistance(SortByDistance(s), d) == AtDistance(s, d)
    decreases |s|
  {
    if |s| > 0 {
      SortIsStable(s[1..], d);
      InsertKeepsTies(s[0], SortByDistance(s[1..]), d);
    }
  }

  /** The position after `current` in `order`, wrapping from the last to the
      first; an id that is not in `order` counts as position -1. */
  function Advance(order: seq<EntityId>, current: EntityId): (k: nat)
    requires |order| > 0
    ensures k < |order|
    ensures current !in order ==> k == 0
    ensures current in order ==> k == (IndexOf(order, current) + 1) % |order|
  {
    var found := IndexOf(order, current);
    var index := if found == |order| - 1 then -1 else found;
    if found == |order| - 1 then ModWrap(found + 1, |order|); index + 1
    else ModBelow(found + 1, |order|); index + 1
  }

  lemma ModBelow(x: int, n: int)
    requires 0 <= x < n
    ensures x % n == x
  {
  }

  lemma ModWrap(x: int, n: int)
    requires n <= x < 2 * n
    ensures x % n == x - n
  {
    ModBelow(x - n, n);
  }

  lemma MulAtLeast(n: int, d: int)
    requires 0 < n && 1 <= d
    ensures n * d >= n
  {
  }

  lemma ModUnique(y: int, n: int, k: int, r: int)
    requires 0 < n && 0 <= r < n && y == n * k + r
    ensures y % n == r
  {
    var d := k - y / n;
    assert n * d == y % n - r;
    if d >= 1 {
      MulAtLeast(n, d);
    } else if d <= -1 {
      MulAtLeast(n, -d);
    }
  }

  lemma ModAddN(x: int, n: int)
    requires 0 <= x && 0 < n
    ensures (x + n) % n == x % n
  {
    var q, r := x / n, x % n;
    assert x == n * q + r;
    assert x + n == n * (q + 1) + r;
    ModUnique(x + n, n, q + 1, r);
  }

  /** `List.Find(o => o.EntityId == id)`: the first entity with that id. */
  function FindById(es: seq<Entity>, id: EntityId): (r: Option<Entity>)
    ensures r.None? <==> id !in Ids(es)
    ensures r.Some? ==> r.value == es[IndexOf(Ids(es), id)]
  {
    var i := IndexOf(Ids(es), id);
    if i == -1 then None else Some(es[i])
  }

  /** `CyclingTargets.Union(ids)` when some id is new, then `.Intersect(ids)`. */
  function Rotation(prior: seq<EntityId>, ids: seq<EntityId>): (r: seq<EntityId>)
    ensures Unique(r)
    ensures Elems(r) == Elems(ids)
  {
    var merged := if exists x :: x in ids && x !in prior then Union(prior, ids) else prior;
    assert Elems(ids) <= Elems(merged);
    Intersect(merged, ids)
  }

  /** The rotation keeps the surviving prior ids first, in their prior order, and
      appends the new ids in distance order. */
  lemma RotationKeepsOrder(prior: seq<EntityId>, ids: seq<EntityId>)
    ensures Rotation(prior, ids) == Intersect(prior, ids) + DistinctFrom(ids, Elems(prior))
  {
    if exists x :: x in ids && x !in prior {
      var both := prior + ids;
      KeepDistinctFrom(both, {}, ids);
      KeepAppend(prior, ids, ids);
      KeepAll(ids, ids);
      var k := Keep(prior, ids) + ids;
      DistinctFromOfUnique(DistinctFrom(k, {}), {});
      DistinctFromAppend(Keep(prior, ids), ids, {});
      assert {} + Elems(Keep(prior, ids)) == Elems(Keep(prior, ids));
      DistinctFromSeen(ids, Elems(Keep(prior, ids)), Elems(prior));
    } else {
      assert Elems(ids) <= Elems(prior);
      DistinctFromCovered(ids, Elems(prior));
    }
  }

  /** While the candidate ids do not change, neither does the rotation. */
  lemma RotationStable(prior: seq<EntityId>, ids: seq<EntityId>)
    requires Unique(prior) && Elems(prior) == Elems(ids)
    ensures Rotation(prior, ids) == prior
  {
    assert !exists x :: x in ids && x !in prior by {
      forall x | x in ids ensures x in prior {
        assert x in Elems(ids);
      }
    }
    assert forall x :: x in prior ==> x in ids by {
      forall x | x in prior ensures x in ids {
        assert x in Elems(prior);
      }
    }
    KeepAll(prior, ids);
    DistinctFromOfUnique(prior, {});
  }

  /** One call with a non-empty, distance-sorted candidate list. */
  function CycleStep(st: CycleState, sorted: seq<Entity>, current: EntityId): (r: Cycled)
    requires |sorted| > 0
    ensures r.target.Some? && r.target.value in sorted
    ensures Elems(r.state.lastCone) == Elems(Ids(sorted))
    ensures Elems(r.state.cycling) == Elems(Ids(sorted))
    ensures |r.state.cycling| > 0 &&
      r.target.value.id == r.state.cycling[Advance(r.state.cycling, current)]
    ensures Elems(st.lastCone) == Elems(Ids(sorted)) ==>
      r.state.lastCone == st.lastCone && Unique(r.state.cycling)
    ensures Elems(st.lastCone) != Elems(Ids(sorted)) ==>
      r.state == CycleState(Ids(sorted), Ids(sorted))
  {
    var ids := Ids(sorted);
    assert sorted[0].id in ids;
    if Elems(st.lastCone) == Elems(ids) then
      var order := Rotation(st.cycling, ids);
      assert sorted[0].id in Elems(order);
      var k := Advance(order, current);
      assert order[k] in Elems(ids);
      Cycled(st.(cycling := order), FindById(sorted, order[k]))
    else
      var k := Advance(ids, current);
      Cycled(CycleState(ids, ids), FindById(sorted, ids[k]))
  }

  /** For the same cone the step keeps the ids that survive from the old
      rotation first, in their old order, and appends the newcomers in
      distance order. */
  lemma StepKeepsOrder(st: CycleState, sorted: seq<Entity>, current: EntityId)
    requires |sorted| > 0 && Elems(st.lastCone) == Elems(Ids(sorted))
    ensures CycleStep(st, sorted, current).state.cycling
      == Intersect(st.cycling, Ids(sorted)) + DistinctFrom(Ids(sorted), Elems(st.cycling))
  {
    RotationKeepsOrder(st.cycling, Ids(sorted));
  }

  /** The step's target is the first candidate with its id. */
  lemma StepFound(st: CycleState, sorted: seq<Entity>, current: EntityId)
    requires |sorted| > 0
    ensures var t := CycleStep(st, sorted, current).target;
      t.Some? && t == FindById(sorted, t.value.id)
  {
  }

  /** The state a stable candidate list settles into. */
  predicate Settled(st: CycleState, sorted: seq<Entity>) {
    && Elems(st.lastCone) == Elems(Ids(sorted))
    && Unique(st.cycling)
    && Elems(st.cycling) == Elems(Ids(sorted))
  }

  /** After one call the state is settled, unless the ids were just reset to a
      list that repeats an id; in every case the next call sees a match. */
  lemma StepSettles(st: CycleState, sorted: seq<Entity>, current: EntityId)
    requires |sorted| > 0
    requires Elems(st.lastCone) == Elems(Ids(sorted)) || Unique(Ids(sorted))
    ensures Settled(CycleStep(st, sorted, current).state, sorted)
  {
  }

  /** A settled state does not change, and the next target follows `current`
      in the rotation. */
  lemma SettledStep(st: CycleState, sorted: seq<Entity>, current: EntityId)
    requires |sorted| > 0 && Settled(st, sorted)
    ensures |st.cycling| > 0
    ensures CycleStep(st, sorted, current).state == st
    ensures CycleStep(st, sorted, current).target.value.id == st.cycling[Advance(st.cycling, current)]
  {
    assert sorted[0].id in Elems(Ids(sorted));
    RotationStable(st.cycling, Ids(sorted));
  }

  /** The targets chosen by `n` consecutive calls on an unchanged candidate
      list, each call starting from the target the previous one set. */
  function Walk(st: CycleState, sorted: seq<Entity>, current: EntityId, n: nat): (v: seq<Option<Entity>>)
    requires |sorted| > 0
    ensures |v| == n
    decreases n
  {
    if n == 0 then []
    else
      var r := CycleStep(st, sorted, current);
      [r.target] + Walk(r.state, sorted, r.target.value.id, n - 1)
  }

  /** Every entry is a candidate, and the first candidate with its id. */
  predicate AllFound(v: seq<Option<Entity>>, sorted: seq<Entity>)
    decreases |v|
  {
    |v| == 0 ||
    (v[0].Some? && v[0].value in sorted && v[0] == FindById(sorted, v[0].value.id) && AllFound(v[1..], sorted))
  }

  lemma {:induction false} AllFoundAt(v: seq<Option<Entity>>, sorted: seq<Entity>)
    requires AllFound(v, sorted)
    ensures forall i :: 0 <= i < |v| ==> v[i].Some? && v[i].value in sorted
    ensures forall i :: 0 <= i < |v| ==> v[i] == FindById(sorted, v[i].value.id)
    decreases |v|
  {
    if |v| > 0 {
      AllFoundAt(v[1..], sorted);
      forall i | 1 <= i < |v|
        ensures v[i] == v[1..][i - 1]
      {
      }
    }
  }

  /** Every target of the walk is a candidate, found by its id. */
  lemma {:induction false} WalkFound(st: CycleState, sorted: seq<Entity>, current: EntityId, n: nat)
    requires |sorted| > 0
    ensures AllFound(Walk(st, sorted, current, n), sorted)
    decreases n
  {
    if n > 0 {
      var r := CycleStep(st, sorted, current);
      var rest := Walk(r.state, sorted, r.target.value.id, n - 1);
      WalkCons(st, sorted, current, n);
      WalkFound(r.state, sorted, r.target.value.id, n - 1);
      StepFound(st, sorted, current);
      assert ([r.target] + rest)[1..] == rest;
    }
  }

  /** The first call of a walk, and the walk that follows it. */
  lemma WalkCons(st: CycleState, sorted: seq<Entity>, current: EntityId, n: nat)
    requires |sorted| > 0 && n > 0
    ensures var r := CycleStep(st, sorted, current);
      Walk(st, sorted, current, n) == [r.target] + Walk(r.state, sorted, r.target.value.id, n - 1)
  {
  }

  /** The ids of a sequence of chosen targets, 0 standing for none. */
  function TargetIds(v: seq<Option<Entity>>): (ids: seq<EntityId>)
    ensures |ids| == |v|
    ensures forall i :: 0 <= i < |v| ==> ids[i] == (if v[i].Some? then v[i].value.id else 0)
  {
    seq(|v|, i requires 0 <= i < |v| => if v[i].Some? then v[i].value.id else 0)
  }

  lemma TargetIdsCons(x: Option<Entity>, rest: seq<Option<Entity>>)
    requires x.Some?
    ensures TargetIds([x] + rest) == [x.value.id] + TargetIds(rest)
  {
    var v := [x] + rest;
    assert forall i :: 1 <= i < |v| ==> v[i] == rest[i - 1];
  }


  /** Once the remembered cone matches the candidates (after any call), as
      many calls as there are distinct candidate ids target each of them
      exactly once, and the call after that targets the first one again. */
  lemma WalkGoesRound(st: CycleState, sorted: seq<Entity>, current: EntityId)
    requires |sorted| > 0 && Elems(st.lastCone) == Elems(Ids(sorted))
    ensures var n := |Elems(Ids(sorted))|;
      var v := Walk(st, sorted, current, n + 1);
      && Unique(TargetIds(v)[..n])
      && Elems(TargetIds(v)[..n]) == Elems(Ids(sorted))
      && v[n] == v[0]
      && (forall i :: 0 <= i < |v| ==> v[i].Some? && v[i].value in sorted)
  {
    var r := CycleStep(st, sorted, current);
    StepSettles(st, sorted, current);
    var order := r.state.cycling;
    UniqueCard(order);
    var n := |order|;
    var v := Walk(st, sorted, current, n + 1);
    var rest := Walk(r.state, sorted, r.target.value.id, n);
    WalkCons(st, sorted, current, n + 1);
    WalkFollowsOrbit(r.state, sorted, r.target.value.id, n);
    TargetIdsCons(r.target, rest);
    assert Orbit(order, current, n + 1) == [r.target.value.id] + Orbit(order, r.target.value.id, n);
    OrbitCoversOnce(order, current);
    WalkFound(st, sorted, current, n + 1);
    AllFoundAt(v, sorted);
  }

  lemma ModStep(a: nat, n: nat, m: nat)
    requires a < n && 1 <= m
    ensures ((a + 1) % n + (m - 1)) % n == (a + m) % n
  {
    if a + 1 == n {
      ModWrap(a + 1, n);
      ModAddN(m - 1, n);
      assert a + m == (m - 1) + n;
    } else {
      ModBelow(a + 1, n);
    }
  }

  /** The walk through a fixed rotation `order` starting after `current`. */
  function Orbit(order: seq<EntityId>, current: EntityId, n: nat): (v: seq<EntityId>)
    requires |order| > 0
    ensures |v| == n
    decreases n
  {
    if n == 0 then []
    else
      var next := order[Advance(order, current)];
      [next] + Orbit(order, next, n - 1)
  }

  /** On a settled state the calls walk the (unchanging) rotation. */
  lemma {:induction false} WalkFollowsOrbit(st: CycleState, sorted: seq<Entity>, current: EntityId, n: nat)
    requires |sorted| > 0 && Settled(st, sorted)
    ensures |st.cycling| > 0
    ensures TargetIds(Walk(st, sorted, current, n)) == Orbit(st.cycling, current, n)
    decreases n
  {
    SettledStep(st, sorted, current);
    if n > 0 {
      var next := st.cycling[Advance(st.cycling, current)];
      var x := CycleStep(st, sorted, current).target;
      var rest := Walk(st, sorted, next, n - 1);
      assert Walk(st, sorted, current, n) == [x] + rest && x.Some? && x.value.id == next by {
        SettledStep(st, sorted, current);
        WalkCons(st, sorted, current, n);
      }
      WalkFollowsOrbit(st, sorted, next, n - 1);
      TargetIdsCons(x, rest);
    }
  }

  /** In a duplicate-free order the step from position `k` goes to `k + 1`,
      wrapping round. */
  lemma AdvanceFrom(order: seq<EntityId>, k: nat)
    requires Unique(order) && k < |order|
    ensures Advance(order, order[k]) == (k + 1) % |order|
  {
    IndexOfUnique(order, k);
  }

  /** In a duplicate-free rotation, step `m` lands `m` places after the
      first one, wrapping around. */
  lemma {:induction false} OrbitRotates(order: seq<EntityId>, current: EntityId, n: nat)
    requires |order| > 0 && Unique(order)
    ensures var start := Advance(order, current);
      forall m :: 0 <= m < n ==> Orbit(order, current, n)[m] == order[(start + m) % |order|]
    decreases n
  {
    if n > 0 {
      var start := Advance(order, current);
      var next := order[start];
      var tail := Orbit(order, next, n - 1);
      var v := Orbit(order, current, n);
      OrbitRotates(order, next, n - 1);
      AdvanceFrom(order, start);
      assert v == [next] + tail;
      forall m | 0 <= m < n
        ensures v[m] == order[(start + m) % |order|]
      {
        if m == 0 {
          ModBelow(start, |order|);
        } else {
          assert v[m] == tail[m - 1];
          ModStep(start, |order|, m);
        }
      }
    }
  }

  /** `|order| + 1` steps of the walk meet every member exactly once and then
      come back to the first. */
  lemma OrbitCoversOnce(order: seq<EntityId>, current: EntityId)
    requires |order| > 0 && Unique(order)
    ensures var v := Orbit(order, current, |order| + 1);
      && Unique(v[..|order|])
      && Elems(v[..|order|]) == Elems(order)
      && v[|order|] == v[0]
  {
    var n := |order|;
    var start := Advance(order, current);
    var v := Orbit(order, current, n + 1);
    OrbitRotates(order, current, n + 1);
    var w := v[..n];
    assert v[n] == v[0] by {
      ModAddN(start, n);
      ModBelow(start, n);
    }
    forall i | 0 <= i < n
      ensures w[i] == order[if start + i < n then start + i else start + i - n]
    {
      assert w[i] == order[(start + i) % n];
      if start + i < n {
        ModBelow(start + i, n);
      } else {
        ModWrap(start + i, n);
      }
    }
    RotatedWindow(order, start, w);
  }

  /** A window that reads `order` from `start` round to just before it holds
      every member exactly once. */
  lemma RotatedWindow(order: seq<EntityId>, start: nat, w: seq<EntityId>)
    requires Unique(order) && start < |order| && |w| == |order|
    requires forall i :: 0 <= i < |w| ==>
      w[i] == order[if start + i < |order| then start + i else start + i - |order|]
    ensures Unique(w) && Elems(w) == Elems(order)
  {
    var n := |order|;
    forall x | x in Elems(order)
      ensures x in Elems(w)
    {
      var k :| 0 <= k < n && order[k] == x;
      var m := if k >= start then k - start else k + n - start;
      assert w[m] == x;
    }
  }
}
