/** The one-shot selection strategies: `TargetClosest` (nearest, or lowest
    health first) and `TargetBestAOE` (the target with the most neighbours). */
module Selection {
  import opened Wrappers
  import opened Ranking
  import opened Entities

  /** Neighbours closer than this count towards an area attack. */
  const AoeRadius: int := 5

  /** The first non-empty list of a fallback chain, or the empty list. */
  function FirstNonEmpty<T>(pools: seq<seq<T>>): (pool: seq<T>)
    ensures |pool| == 0 <==> forall p :: 0 <= p < |pools| ==> |pools[p]| == 0
    ensures |pool| > 0 ==>
      exists p :: 0 <= p < |pools| && pools[p] == pool && forall q :: 0 <= q < p ==> |pools[q]| == 0
  {
    if |pools| == 0 then []
    else if |pools[0]| > 0 then pools[0]
    else
      var pool := FirstNonEmpty(pools[1..]);
      assert forall p :: 1 <= p < |pools| ==> pools[p] == pools[1..][p - 1];
      pool
  }

  /** The element `OrderBy(distance).First()` returns, or, for lowest health,
      `OrderBy(hp).ThenBy(distance).First()`. */
  function PickIndex(pool: seq<Entity>, lowestHealth: bool): (k: nat)
    requires |pool| > 0
    ensures k < |pool|
    ensures !lowestHealth ==> forall j :: 0 <= j < |pool| ==> pool[k].distance <= pool[j].distance
    ensures !lowestHealth ==> forall j :: 0 <= j < k ==> pool[k].distance < pool[j].distance
    ensures lowestHealth ==> forall j :: 0 <= j < |pool| ==> pool[k].hp <= pool[j].hp
    ensures lowestHealth ==>
      forall j :: 0 <= j < |pool| && pool[j].hp == pool[k].hp ==> pool[k].distance <= pool[j].distance
    ensures lowestHealth ==>
      forall j :: 0 <= j < k ==>
        pool[k].hp < pool[j].hp || (pool[k].hp == pool[j].hp && pool[k].distance < pool[j].distance)
  {
    var keys := seq(|pool|, i requires 0 <= i < |pool| =>
      if lowestHealth then Rank(pool[i].hp, pool[i].distance) else Rank(pool[i].distance, 0));
    assert forall j :: 0 <= j < |pool| ==>
      keys[j] == if lowestHealth then Rank(pool[j].hp, pool[j].distance) else Rank(pool[j].distance, 0);
    FirstMin(keys)
  }

  /** The positions from `j` on, other than `i`, of pool members within the
      area radius of `pool[i]`. */
  function Neighbours(pool: seq<Entity>, i: nat, j: nat, gap: (Entity, Entity) -> int): set<nat>
    requires i < |pool|
  {
    set k: nat | j <= k < |pool| && k != i && gap(pool[i], pool[k]) <= AoeRadius
  }

  /** Counts `Neighbours(pool, i, j, gap)` one position at a time. */
  function CountNear(pool: seq<Entity>, i: nat, j: nat, gap: (Entity, Entity) -> int): (n: nat)
    requires i < |pool| && j <= |pool|
    ensures n == |Neighbours(pool, i, j, gap)|
    ensures n <= |pool| - j - (if j <= i then 1 else 0)
    decreases |pool| - j
  {
    if j == |pool| then
      assert Neighbours(pool, i, j, gap) == {};
      0
    else
      var rest := CountNear(pool, i, j + 1, gap);
      var later := Neighbours(pool, i, j + 1, gap);
      var here := Neighbours(pool, i, j, gap);
      if j != i && gap(pool[i], pool[j]) <= AoeRadius then
        assert here == later + {j};
        rest + 1
      else
        assert here == later;
        rest
  }

  /** `AOETarget.inRange`: how many other members of the same pool are within
      the area radius. Members are told apart by position, as the source
      tells them apart by object reference. */
  function InRange(pool: seq<Entity>, i: nat, gap: (Entity, Entity) -> int): (n: nat)
    requires i < |pool|
    ensures n == |Neighbours(pool, i, 0, gap)|
    ensures n <= |pool| - 1
  {
    CountNear(pool, i, 0, gap)
  }

  /** `OrderByDescending(inRange).ThenByDescending(hp).First()`. */
  function BestAoeIndex(pool: seq<Entity>, gap: (Entity, Entity) -> int): (k: nat)
    requires |pool| > 0
    ensures k < |pool|
    ensures forall j :: 0 <= j < |pool| ==> InRange(pool, j, gap) <= InRange(pool, k, gap)
    ensures forall j :: 0 <= j < |pool| && InRange(pool, j, gap) == InRange(pool, k, gap) ==>
      pool[j].hp <= pool[k].hp
    ensures forall j :: 0 <= j < k ==>
      InRange(pool, j, gap) < InRange(pool, k, gap) ||
      (InRange(pool, j, gap) == InRange(pool, k, gap) && pool[j].hp < pool[k].hp)
  {
    var counts := seq(|pool|, i requires 0 <= i < |pool| => InRange(pool, i, gap));
    var keys := seq(|pool|, i requires 0 <= i < |pool| => Rank(-(counts[i] as int), -(pool[i].hp as int)));
    var k := FirstMin(keys);
    MostCrowded(pool, counts, keys, k);
    k
  }

  /** The least key of the descending sort is the most crowded member, then the
      healthiest. */
  lemma MostCrowded(pool: seq<Entity>, counts: seq<nat>, keys: seq<Rank>, k: nat)
    requires |counts| == |keys| == |pool| && k < |pool|
    requires forall i :: 0 <= i < |pool| ==> keys[i] == Rank(-(counts[i] as int), -(pool[i].hp as int))
    requires forall j :: 0 <= j < |keys| ==> !Before(keys[j], keys[k])
    requires forall j :: 0 <= j < k ==> Before(keys[k], keys[j])
    ensures forall j :: 0 <= j < |pool| ==> counts[j] <= counts[k]
    ensures forall j :: 0 <= j < |pool| && counts[j] == counts[k] ==> pool[j].hp <= pool[k].hp
    ensures forall j :: 0 <= j < k ==>
      counts[j] < counts[k] || (counts[j] == counts[k] && pool[j].hp < pool[k].hp)
  {
  }
}
