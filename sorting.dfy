/** Ordering rankables for display: Python's stable `sorted` by descending
    ranking (siblings in a comment tree) and SQL `ORDER BY -ranking,
    -date_posted` (the front page). Both are modelled by one stable sort on a
    two-part key, largest first. */
module Sorting {

  /** A sort key, compared first on `major`, then on `minor`. */
  datatype SortKey = SortKey(major: real, minor: int)

  /** `a` sorts no later than `b` in a largest-first order. */
  predicate AtLeast(a: SortKey, b: SortKey) {
    a.major > b.major || (a.major == b.major && a.minor >= b.minor)
  }

  /** Sorted, largest key first. */
  predicate SortedDesc(xs: seq<nat>, key: nat -> SortKey) {
    forall i, j | 0 <= i < j < |xs| :: AtLeast(key(xs[i]), key(xs[j]))
  }

  /** Sorted largest key first, equal keys by ascending id. */
  predicate OrderedDesc(xs: seq<nat>, key: nat -> SortKey) {
    forall i, j | 0 <= i < j < |xs| ::
      AtLeast(key(xs[i]), key(xs[j])) && (key(xs[i]) == key(xs[j]) ==> xs[i] < xs[j])
  }

  predicate StrictlyIncreasing(xs: seq<nat>) {
    forall i, j | 0 <= i < j < |xs| :: xs[i] < xs[j]
  }

  /** A strictly increasing list holds no value twice. */
  lemma {:induction false} MultiplicityInIncreasing(xs: seq<nat>, x: nat)
    requires StrictlyIncreasing(xs)
    ensures multiset(xs)[x] <= 1
    decreases |xs|
  {
    if xs != [] {
      MultiplicityInIncreasing(xs[1..], x);
      assert xs == [xs[0]] + xs[1..];
      if xs[0] == x {
        assert x !in xs[1..];
      }
    }
  }

  /** Put `x` into a largest-first list behind every element whose key is at
      least its own, so that among equal keys the earlier element stays first. */
  function Insert(x: nat, xs: seq<nat>, key: nat -> SortKey): (r: seq<nat>)
    ensures multiset(r) == multiset(xs) + multiset{x}
    ensures |r| == |xs| + 1
  {
    if xs == [] then [x]
    else if AtLeast(key(xs[0]), key(x)) then
      assert xs == [xs[0]] + xs[1..];
      [xs[0]] + Insert(x, xs[1..], key)
    else [x] + xs
  }

  /** `sorted(xs, key=...)` largest first, as a stable insertion sort. */
  function SortDesc(xs: seq<nat>, key: nat -> SortKey): (r: seq<nat>)
    decreases |xs|
  {
    if xs == [] then [] else Insert(xs[|xs| - 1], SortDesc(xs[..|xs| - 1], key), key)
  }

  /** Sorting only reorders: the result is a permutation of the input. */
  lemma {:induction false} SortDescPermutes(xs: seq<nat>, key: nat -> SortKey)
    ensures multiset(SortDesc(xs, key)) == multiset(xs)
    ensures |SortDesc(xs, key)| == |xs|
    decreases |xs|
  {
    if xs != [] {
      SortDescPermutes(xs[..|xs| - 1], key);
      assert xs == xs[..|xs| - 1] + [xs[|xs| - 1]];
    }
  }

  /** `h` may stand before every element of `t`. */
  predicate Precedes(h: nat, t: seq<nat>, key: nat -> SortKey) {
    forall j | 0 <= j < |t| :: AtLeast(key(h), key(t[j])) && (key(h) == key(t[j]) ==> h < t[j])
  }

  lemma OrderedCons(h: nat, t: seq<nat>, key: nat -> SortKey)
    requires OrderedDesc(t, key) && Precedes(h, t, key)
    ensures OrderedDesc([h] + t, key)
  {
    var r := [h] + t;
    forall i, j | 0 <= i < j < |r|
      ensures AtLeast(key(r[i]), key(r[j])) && (key(r[i]) == key(r[j]) ==> r[i] < r[j])
    {
      if i > 0 {
        assert r[i] == t[i - 1] && r[j] == t[j - 1];
      } else {
        assert r[j] == t[j - 1];
      }
    }
  }

  lemma PrecedesByMembership(h: nat, t: seq<nat>, u: seq<nat>, key: nat -> SortKey)
    requires Precedes(h, u, key)
    requires forall y | y in multiset(t) :: y in multiset(u)
    ensures Precedes(h, t, key)
  {
    forall j | 0 <= j < |t| ensures AtLeast(key(h), key(t[j])) && (key(h) == key(t[j]) ==> h < t[j]) {
      assert t[j] in multiset(t);
      var k :| 0 <= k < |u| && u[k] == t[j];
    }
  }

  lemma {:induction false} InsertKeepsOrder(x: nat, xs: seq<nat>, key: nat -> SortKey)
    requires OrderedDesc(xs, key)
    requires forall i | 0 <= i < |xs| :: xs[i] < x
    ensures OrderedDesc(Insert(x, xs, key), key)
    decreases |xs|
  {
    if xs == [] {
    } else if AtLeast(key(xs[0]), key(x)) {
      var tail := xs[1..];
      InsertKeepsOrder(x, tail, key);
      var rt := Insert(x, tail, key);
      assert Precedes(xs[0], tail + [x], key) by {
        forall j | 0 <= j < |tail + [x]|
          ensures AtLeast(key(xs[0]), key((tail + [x])[j])) && (key(xs[0]) == key((tail + [x])[j]) ==> xs[0] < (tail + [x])[j])
        {
          if j < |tail| {
            assert (tail + [x])[j] == xs[j + 1];
          }
        }
      }
      assert multiset(rt) == multiset(tail + [x]);
      PrecedesByMembership(xs[0], rt, tail + [x], key);
      OrderedCons(xs[0], rt, key);
    } else {
      assert Precedes(x, xs, key) by {
        forall j | 0 <= j < |xs| ensures AtLeast(key(x), key(xs[j])) && (key(x) == key(xs[j]) ==> x < xs[j]) {
          assert AtLeast(key(xs[0]), key(xs[j]));
        }
      }
      OrderedCons(x, xs, key);
    }
  }

  /** Sorting a list given in ascending id order (as the database hands out a
      child set) yields the rankables by descending key, and equal keys in
      ascending id order: the sort is stable. */
  lemma {:induction false} SortDescOrdered(xs: seq<nat>, key: nat -> SortKey)
    requires StrictlyIncreasing(xs)
    ensures OrderedDesc(SortDesc(xs, key), key)
    ensures SortedDesc(SortDesc(xs, key), key)
    decreases |xs|
  {
    if xs != [] {
      var init := xs[..|xs| - 1];
      SortDescOrdered(init, key);
      SortDescPermutes(init, key);
      var sorted := SortDesc(init, key);
      forall i | 0 <= i < |sorted| ensures sorted[i] < xs[|xs| - 1] {
        assert sorted[i] in multiset(init);
        var k :| 0 <= k < |init| && init[k] == sorted[i];
      }
      InsertKeepsOrder(xs[|xs| - 1], sorted, key);
    }
  }
}
