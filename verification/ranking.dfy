/** LINQ's `OrderBy(k1).ThenBy(k2).First()` is a stable sort followed by taking
    the head, i.e. the earliest element whose key pair is lexicographically
    least. Descending orders (`OrderByDescending`) negate the key. */
module Ranking {

  /** A two-level sort key, compared lexicographically. */
  datatype Rank = Rank(major: int, minor: int)

  /** `a` sorts strictly before `b`. */
  predicate Before(a: Rank, b: Rank) {
    a.major < b.major || (a.major == b.major && a.minor < b.minor)
  }

  /** The position a stable sort moves to the front: no key is strictly
      smaller than the chosen one, and every earlier key is strictly larger. */
  function FirstMin(keys: seq<Rank>): (k: nat)
    requires |keys| > 0
    ensures k < |keys|
    ensures forall j :: 0 <= j < |keys| ==> !Before(keys[j], keys[k])
    ensures forall j :: 0 <= j < k ==> Before(keys[k], keys[j])
  {
    if |keys| == 1 then 0
    else
      var k := FirstMin(keys[1..]) + 1;
      if Before(keys[k], keys[0]) then k else 0
  }

  /** The two properties pin the position down: it is the only one a stable
      sort can put first. */
  lemma FirstMinIsUnique(keys: seq<Rank>, k: nat)
    requires k < |keys|
    requires forall j :: 0 <= j < |keys| ==> !Before(keys[j], keys[k])
    requires forall j :: 0 <= j < k ==> Before(keys[k], keys[j])
    ensures FirstMin(keys) == k
  {
  }
}
