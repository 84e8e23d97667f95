/** Order-preserving sequence algebra used by the plugin: subsequences, the
    first-occurrence de-duplication behind LINQ `Distinct`, `Union` and
    `Intersect`, and `List.FindIndex`. */
module Sequences {

  /** No element occurs twice. */
  predicate Unique<T(==)>(s: seq<T>) {
    forall i, j :: 0 <= i < j < |s| ==> s[i] != s[j]
  }

  /** The elements of `s` as a set. */
  function Elems<T>(s: seq<T>): set<T> {
    set x | x in s
  }

  lemma ElemsCons<T>(s: seq<T>)
    requires |s| > 0
    ensures Elems(s) == {s[0]} + Elems(s[1..])
  {
    assert s == [s[0]] + s[1..];
  }

  lemma ElemsAppend<T>(a: seq<T>, b: seq<T>)
    ensures Elems(a + b) == Elems(a) + Elems(b)
  {
  }

  /** `a` is obtained from `b` by deleting elements (order kept). */
  predicate IsSubseq<T(==)>(a: seq<T>, b: seq<T>)
    decreases |b|
  {
    |a| == 0 ||
    (|b| > 0 && ((a[0] == b[0] && IsSubseq(a[1..], b[1..])) || IsSubseq(a, b[1..])))
  }

  /** The elements of `a` that occur in `b`, in the order of `a`. */
  function Keep<T(==)>(a: seq<T>, b: seq<T>): (r: seq<T>)
    ensures Elems(r) == Elems(a) * Elems(b)
    ensures IsSubseq(r, a)
  {
    if |a| == 0 then []
    else
      ElemsCons(a);
      var rest := Keep(a[1..], b);
      if a[0] in b then ElemsCons([a[0]] + rest); [a[0]] + rest
      else rest
  }

  /** The first occurrence of every element of `s` that is not in `seen`,
      in order; this is how LINQ's set operators enumerate. */
  function DistinctFrom<T(==)>(s: seq<T>, seen: set<T>): (r: seq<T>)
    ensures Unique(r)
    ensures Elems(r) == Elems(s) - seen
    ensures IsSubseq(r, s)
  {
    if |s| == 0 then []
    else if s[0] in seen then ElemsCons(s); DistinctFrom(s[1..], seen)
    else
      var rest := DistinctFrom(s[1..], seen + {s[0]});
      ElemsCons(s);
      ElemsCons([s[0]] + rest);
      [s[0]] + rest
  }

  /** LINQ `Distinct`. */
  function Dedup<T(==)>(s: seq<T>): seq<T> {
    DistinctFrom(s, {})
  }

  /** `r` lists its elements in the order in which they first occur in `s`. */
  predicate InFirstOccurrenceOrder<T(==)>(r: seq<T>, s: seq<T>) {
    forall i, j {:trigger IndexOf(s, r[i]), IndexOf(s, r[j])} :: 0 <= i < j < |r| ==> IndexOf(s, r[i]) < IndexOf(s, r[j])
  }

  /** LINQ `a.Union(b)`: every element of either list once, in the order of
      its first occurrence in `a` and then `b`. */
  function Union<T(==)>(a: seq<T>, b: seq<T>): (r: seq<T>)
    ensures Unique(r)
    ensures Elems(r) == Elems(a) + Elems(b)
    ensures InFirstOccurrenceOrder(r, a + b)
  {
    ElemsAppend(a, b);
    DistinctFromInOrder(a + b, {});
    Dedup(a + b)
  }

  /** LINQ `a.Intersect(b)`: every element of `a` that is also in `b` once,
      in the order of its first occurrence in `a`. */
  function Intersect<T(==)>(a: seq<T>, b: seq<T>): (r: seq<T>)
    ensures Unique(r)
    ensures Elems(r) == Elems(a) * Elems(b)
    ensures InFirstOccurrenceOrder(r, a)
  {
    IntersectInOrder(a, b);
    Dedup(Keep(a, b))
  }

  /** `List.FindIndex(o => o == x)`: the first position of `x`, or -1. */
  function IndexOf<T(==)>(s: seq<T>, x: T): (i: int)
    ensures -1 <= i < |s|
    ensures i == -1 <==> x !in s
    ensures 0 <= i ==> s[i] == x && x !in s[..i]
  {
    if |s| == 0 then -1
    else if s[0] == x then 0
    else
      var j := IndexOf(s[1..], x);
      if j == -1 then -1 else j + 1
  }

  /** Past the head, positions in `s` are one more than in its tail. */
  lemma IndexOfTail<T>(s: seq<T>, x: T)
    requires |s| > 0 && x != s[0] && x in s
    ensures x in s[1..] && IndexOf(s, x) == IndexOf(s[1..], x) + 1
  {
    assert s == [s[0]] + s[1..];
  }

  /** `DistinctFrom` keeps the first occurrence of each element: what it
      returns is in first-occurrence order. */
  lemma {:induction false} DistinctFromInOrder<T>(s: seq<T>, seen: set<T>)
    ensures InFirstOccurrenceOrder(DistinctFrom(s, seen), s)
    decreases |s|
  {
    if |s| > 0 {
      var r := DistinctFrom(s, seen);
      var seen' := if s[0] in seen then seen else seen + {s[0]};
      var rest := DistinctFrom(s[1..], seen');
      DistinctFromInOrder(s[1..], seen');
      SubseqElems(rest, s[1..]);
      ElemsCons(s);
      forall i | 0 <= i < |rest|
        ensures IndexOf(s, rest[i]) == IndexOf(s[1..], rest[i]) + 1
      {
        assert rest[i] in Elems(rest);
        IndexOfTail(s, rest[i]);
      }
      if s[0] !in seen {
        assert r == [s[0]] + rest;
        forall i, j | 0 <= i < j < |r|
          ensures IndexOf(s, r[i]) < IndexOf(s, r[j])
        {
          assert r[j] == rest[j - 1];
          if i > 0 {
            assert r[i] == rest[i - 1];
          }
        }
      }
    }
  }

  /** `Keep` does not reorder: positions in `Keep(a, c)` compare as the first
      positions in `a` do. */
  lemma {:induction false} KeepIndexOrder<T>(a: seq<T>, c: seq<T>, x: T, y: T)
    requires x in Keep(a, c) && y in Keep(a, c)
    requires IndexOf(Keep(a, c), x) < IndexOf(Keep(a, c), y)
    ensures IndexOf(a, x) < IndexOf(a, y)
    decreases |a|
  {
    var k := Keep(a, c);
    var rest := Keep(a[1..], c);
    assert x in Elems(k) && y in Elems(k);
    if a[0] in c {
      assert k == [a[0]] + rest;
      if x == a[0] {
        assert y != a[0];
        IndexOfTail(a, y);
      } else {
        assert y != a[0];
        IndexOfTail(k, x);
        IndexOfTail(k, y);
        KeepIndexOrder(a[1..], c, x, y);
        IndexOfTail(a, x);
        IndexOfTail(a, y);
      }
    } else {
      assert x != a[0] && y != a[0];
      KeepIndexOrder(a[1..], c, x, y);
      IndexOfTail(a, x);
      IndexOfTail(a, y);
    }
  }

  lemma IntersectInOrder<T>(a: seq<T>, b: seq<T>)
    ensures InFirstOccurrenceOrder(Dedup(Keep(a, b)), a)
  {
    var k := Keep(a, b);
    var r := Dedup(k);
    DistinctFromInOrder(k, {});
    SubseqElems(r, k);
    forall i, j | 0 <= i < j < |r|
      ensures IndexOf(a, r[i]) < IndexOf(a, r[j])
    {
      assert r[i] in Elems(r) && r[j] in Elems(r);
      KeepIndexOrder(a, b, r[i], r[j]);
    }
  }

  /** A duplicate-free sequence has as many elements as its length. */
  lemma {:induction false} UniqueCard<T>(s: seq<T>)
    requires Unique(s)
    ensures |Elems(s)| == |s|
    decreases |s|
  {
    if |s| > 0 {
      ElemsCons(s);
      assert s[0] !in s[1..];
      UniqueCard(s[1..]);
    }
  }

  lemma IndexOfUnique<T>(s: seq<T>, i: int)
    requires Unique(s) && 0 <= i < |s|
    ensures IndexOf(s, s[i]) == i
  {
  }

  lemma {:induction false} DistinctFromAppend<T>(a: seq<T>, b: seq<T>, seen: set<T>)
    ensures DistinctFrom(a + b, seen) == DistinctFrom(a, seen) + DistinctFrom(b, seen + Elems(a))
    decreases |a|
  {
    if |a| == 0 {
      assert a + b == b;
      assert seen + Elems(a) == seen;
    } else {
      assert (a + b)[0] == a[0];
      assert (a + b)[1..] == a[1..] + b;
      assert Elems(a) == {a[0]} + Elems(a[1..]);
      if a[0] in seen {
        DistinctFromAppend(a[1..], b, seen);
        assert seen + Elems(a[1..]) == seen + Elems(a);
      } else {
        DistinctFromAppend(a[1..], b, seen + {a[0]});
        assert seen + {a[0]} + Elems(a[1..]) == seen + Elems(a);
      }
    }
  }

  /** Only the part of `seen` that meets `s` matters. */
  lemma {:induction false} DistinctFromSeen<T>(s: seq<T>, seen1: set<T>, seen2: set<T>)
    requires seen1 * Elems(s) == seen2 * Elems(s)
    ensures DistinctFrom(s, seen1) == DistinctFrom(s, seen2)
    decreases |s|
  {
    if |s| > 0 {
      ElemsCons(s);
      var e := Elems(s[1..]);
      assert seen1 * e == seen2 * e by {
        assert seen1 * e == (seen1 * Elems(s)) * e;
        assert seen2 * e == (seen2 * Elems(s)) * e;
      }
      assert s[0] in Elems(s);
      assert s[0] in seen1 <==> s[0] in seen2 by {
        assert s[0] in seen1 <==> s[0] in seen1 * Elems(s);
        assert s[0] in seen2 <==> s[0] in seen2 * Elems(s);
      }
      if s[0] in seen1 {
        DistinctFromSeen(s[1..], seen1, seen2);
      } else {
        assert (seen1 + {s[0]}) * e == seen1 * e + {s[0]} * e;
        assert (seen2 + {s[0]}) * e == seen2 * e + {s[0]} * e;
        DistinctFromSeen(s[1..], seen1 + {s[0]}, seen2 + {s[0]});
      }
    }
  }

  lemma DistinctFromCovered<T>(s: seq<T>, seen: set<T>)
    requires Elems(s) <= seen
    ensures DistinctFrom(s, seen) == []
  {
  }

  lemma {:induction false} DistinctFromOfUnique<T>(u: seq<T>, seen: set<T>)
    requires Unique(u) && Elems(u) !! seen
    ensures DistinctFrom(u, seen) == u
    decreases |u|
  {
    if |u| > 0 {
      assert u[0] in Elems(u);
      assert u[0] !in u[1..];
      assert Elems(u[1..]) <= Elems(u);
      DistinctFromOfUnique(u[1..], seen + {u[0]});
    }
  }

  lemma {:induction false} KeepAppend<T>(a: seq<T>, b: seq<T>, c: seq<T>)
    ensures Keep(a + b, c) == Keep(a, c) + Keep(b, c)
    decreases |a|
  {
    if |a| == 0 {
      assert a + b == b;
    } else {
      assert (a + b)[0] == a[0];
      assert (a + b)[1..] == a[1..] + b;
      KeepAppend(a[1..], b, c);
    }
  }

  lemma {:induction false} KeepAll<T>(a: seq<T>, c: seq<T>)
    requires forall x :: x in a ==> x in c
    ensures Keep(a, c) == a
    decreases |a|
  {
    if |a| > 0 {
      assert a[0] in a;
      KeepAll(a[1..], c);
      assert a == [a[0]] + a[1..];
    }
  }

  /** Filtering and de-duplicating commute. */
  lemma {:induction false} KeepDistinctFrom<T>(s: seq<T>, seen: set<T>, c: seq<T>)
    ensures Keep(DistinctFrom(s, seen), c) == DistinctFrom(Keep(s, c), seen)
    decreases |s|
  {
    if |s| > 0 {
      var x := s[0];
      if x in seen {
        KeepDistinctFrom(s[1..], seen, c);
      } else {
        KeepDistinctFrom(s[1..], seen + {x}, c);
        assert DistinctFrom(s, seen) == [x] + DistinctFrom(s[1..], seen + {x});
        if x in c {
          assert Keep(s, c) == [x] + Keep(s[1..], c);
        } else {
          assert Keep(s, c) == Keep(s[1..], c);
          assert x !in Elems(Keep(s[1..], c));
          DistinctFromSeen(Keep(s[1..], c), seen + {x}, seen);
        }
      }
    }
  }

  lemma {:induction false} SubseqElems<T>(a: seq<T>, b: seq<T>)
    requires IsSubseq(a, b)
    ensures Elems(a) <= Elems(b)
    decreases |b|
  {
    if |a| > 0 {
      ElemsCons(a);
      ElemsCons(b);
      if a[0] == b[0] && IsSubseq(a[1..], b[1..]) {
        SubseqElems(a[1..], b[1..]);
      } else {
        SubseqElems(a, b[1..]);
      }
    }
  }
}
