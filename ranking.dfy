/**
 * The ranking pipeline both leaderboards share: keep the entries a predicate
 * selects, sort them by a numeric key from highest to lowest with a stable
 * sort (JavaScript's `Array.prototype.sort` is stable), and cut the list to
 * the first ten.
 *
 * The sort is insertion sort written from the back: the last element is
 * inserted into the sorted rest, behind every element whose key is at least
 * its own. That is the order a stable sort must produce, and it is what the
 * in-place array version in `ContestClient` is proved to compute.
 */
module Ranking {

  const BOARD_SIZE: nat := 10

  function Min(a: nat, b: nat): nat {
    if a <= b then a else b
  }

  /** The elements `keep` selects, in their original order (`Array.prototype.filter`). */
  function Filter<T>(s: seq<T>, keep: T -> bool): (r: seq<T>)
    ensures |r| <= |s|
    ensures forall i :: 0 <= i < |r| ==> keep(r[i])
    ensures multiset(r) <= multiset(s)
    ensures forall x :: x in s && keep(x) ==> x in r
    ensures forall x | x in s :: multiset(r)[x] == if keep(x) then multiset(s)[x] else 0
  {
    if s == [] then []
    else
      assert s == [s[0]] + s[1..];
      (if keep(s[0]) then [s[0]] else []) + Filter(s[1..], keep)
  }

  /** Filtering splits over concatenation, so the kept elements stay in their input order. */
  lemma {:induction false} FilterAppend<T>(s: seq<T>, t: seq<T>, keep: T -> bool)
    ensures Filter(s + t, keep) == Filter(s, keep) + Filter(t, keep)
    decreases |s|
  {
    if s != [] {
      assert (s + t)[1..] == s[1..] + t;
      FilterAppend(s[1..], t, keep);
    } else {
      assert s + t == t;
    }
  }

  /** An element is in the filtered sequence exactly when it is in the input and kept. */
  lemma FilterMembers<T>(s: seq<T>, keep: T -> bool)
    ensures forall x :: x in Filter(s, keep) <==> x in s && keep(x)
  {
    var r := Filter(s, keep);
    forall x | x in r
      ensures x in s && keep(x)
    {
      assert x in multiset(r);
    }
  }

  /** Nothing is dropped when everything is kept. */
  lemma {:induction false} FilterKeepsAll<T>(s: seq<T>, keep: T -> bool)
    requires forall x | x in s :: keep(x)
    ensures Filter(s, keep) == s
    decreases |s|
  {
    if s != [] {
      FilterKeepsAll(s[1..], keep);
      assert s == [s[0]] + s[1..];
    }
  }

  /** Nothing remains when nothing is kept. */
  lemma {:induction false} FilterKeepsNone<T>(s: seq<T>, keep: T -> bool)
    requires forall x | x in s :: !keep(x)
    ensures Filter(s, keep) == []
    decreases |s|
  {
    if s != [] {
      assert s[0] in s;
      assert forall x | x in s[1..] :: x in s;
      FilterKeepsNone(s[1..], keep);
    }
  }

  predicate NonIncreasing<T>(s: seq<T>, key: T -> nat) {
    forall i, j :: 0 <= i < j < |s| ==> key(s[i]) >= key(s[j])
  }

  /** `x` placed into `s` behind the last element whose key is at least `key(x)`. */
  function Insert<T>(s: seq<T>, x: T, key: T -> nat): (r: seq<T>)
    ensures |r| == |s| + 1
    ensures multiset(r) == multiset(s) + multiset{x}
    decreases |s|
  {
    if s == [] || key(s[|s| - 1]) >= key(x) then s + [x]
    else
      assert s == s[..|s| - 1] + [s[|s| - 1]];
      Insert(s[..|s| - 1], x, key) + [s[|s| - 1]]
  }

  /** A stable sort of `s` by `key`, highest first. */
  function SortDesc<T>(s: seq<T>, key: T -> nat): (r: seq<T>)
    ensures |r| == |s|
    ensures multiset(r) == multiset(s)
    decreases |s|
  {
    if s == [] then []
    else
      assert s == s[..|s| - 1] + [s[|s| - 1]];
      Insert(SortDesc(s[..|s| - 1], key), s[|s| - 1], key)
  }

  /** The subsequence of elements whose key is `k`. */
  function WithKey<T>(s: seq<T>, key: T -> nat, k: nat): seq<T>
    decreases |s|
  {
    if s == [] then []
    else WithKey(s[..|s| - 1], key, k) + (if key(s[|s| - 1]) == k then [s[|s| - 1]] else [])
  }

  /** The top of the board: the selected elements, best first, at most `BOARD_SIZE` of them. */
  function Top<T>(s: seq<T>, keep: T -> bool, key: T -> nat): seq<T> {
    var sorted := SortDesc(Filter(s, keep), key);
    sorted[..Min(BOARD_SIZE, |sorted|)]
  }

  /** `.map((x, index) => row(x, index + 1))`: each element with its rank, counting from 1. */
  function Ranked<T, U>(s: seq<T>, row: (T, nat) -> U): (r: seq<U>)
    ensures |r| == |s|
    ensures forall i :: 0 <= i < |s| ==> r[i] == row(s[i], i + 1)
  {
    seq(|s|, i requires 0 <= i < |s| => row(s[i], i + 1))
  }

  // ------------------------------------------------------------ the sort

  lemma InsertSorted<T>(s: seq<T>, x: T, key: T -> nat)
    requires NonIncreasing(s, key)
    ensures NonIncreasing(Insert(s, x, key), key)
    decreases |s|
  {
    if s != [] && key(s[|s| - 1]) < key(x) {
      var init := s[..|s| - 1];
      var last := s[|s| - 1];
      InsertSorted(init, x, key);
      var r := Insert(init, x, key);
      forall i | 0 <= i < |r|
        ensures key(r[i]) >= key(last)
      {
        assert r[i] in multiset(r);
        if r[i] != x {
          assert r[i] in multiset(init);
          var j :| 0 <= j < |init| && init[j] == r[i];
          assert s[j] == init[j];
        }
      }
    }
  }

  /**
   * Where `x` lands: behind position `j` when the key before `j` is at least
   * `key(x)` and every key from `j` on is lower.
   */
  lemma {:induction false} InsertAt<T>(sorted: seq<T>, x: T, key: T -> nat, j: nat)
    requires j <= |sorted|
    requires j == 0 || key(sorted[j - 1]) >= key(x)
    requires forall t :: j <= t < |sorted| ==> key(sorted[t]) < key(x)
    ensures Insert(sorted, x, key) == sorted[..j] + [x] + sorted[j..]
    decreases |sorted|
  {
    if j == |sorted| {
      assert sorted[..j] == sorted && sorted[j..] == [];
    } else {
      var n := |sorted| - 1;
      assert forall t :: j <= t < n ==> sorted[..n][t] == sorted[t];
      InsertAt(sorted[..n], x, key, j);
      InsertBehindLast(sorted, x, key, j);
    }
  }

  /** Inserting before the last element: the last element stays last. */
  lemma InsertBehindLast<T>(sorted: seq<T>, x: T, key: T -> nat, j: nat)
    requires j < |sorted| && key(sorted[|sorted| - 1]) < key(x)
    requires var init := sorted[..|sorted| - 1]; Insert(init, x, key) == init[..j] + [x] + init[j..]
    ensures Insert(sorted, x, key) == sorted[..j] + [x] + sorted[j..]
  {
    var n := |sorted| - 1;
    var init, last := sorted[..n], sorted[n];
    assert Insert(sorted, x, key) == Insert(init, x, key) + [last];
    SplitLast(sorted, j);
    assert init[..j] + [x] + init[j..] + [last] == sorted[..j] + [x] + (init[j..] + [last]);
  }

  lemma SplitLast<T>(s: seq<T>, j: nat)
    requires j < |s|
    ensures s[..|s| - 1][..j] == s[..j]
    ensures s[..|s| - 1][j..] + [s[|s| - 1]] == s[j..]
  {
  }

  /** A sequence laid out as `Insert` would lay it out, element by element, is the insertion's result. */
  lemma InsertPlaced<T>(sorted: seq<T>, x: T, key: T -> nat, j: nat, b: seq<T>)
    requires j <= |sorted| && |b| == |sorted| + 1
    requires j == 0 || key(sorted[j - 1]) >= key(x)
    requires forall t :: j <= t < |sorted| ==> key(sorted[t]) < key(x)
    requires forall t :: 0 <= t < j ==> b[t] == sorted[t]
    requires b[j] == x
    requires forall t :: j < t < |b| ==> b[t] == sorted[t - 1]
    ensures b == Insert(sorted, x, key)
  {
    InsertAt(sorted, x, key, j);
    var laid := sorted[..j] + [x] + sorted[j..];
    assert |laid| == |b|;
    forall t | 0 <= t < |b|
      ensures b[t] == laid[t]
    {
      if t < j {
        assert laid[t] == sorted[t];
      } else if t > j {
        assert laid[t] == sorted[t - 1];
      }
    }
  }

  /** Sorting one more element inserts it into the sorted prefix. */
  lemma SortDescSnoc<T>(s: seq<T>, key: T -> nat, i: nat)
    requires i < |s|
    ensures SortDesc(s[..i + 1], key) == Insert(SortDesc(s[..i], key), s[i], key)
  {
    assert s[..i + 1][..i] == s[..i];
  }

  /** The result is ordered: keys never increase along it. */
  lemma {:induction false} SortDescSorted<T>(s: seq<T>, key: T -> nat)
    ensures NonIncreasing(SortDesc(s, key), key)
    decreases |s|
  {
    if s != [] {
      SortDescSorted(s[..|s| - 1], key);
      InsertSorted(SortDesc(s[..|s| - 1], key), s[|s| - 1], key);
    }
  }

  lemma {:induction false} WithKeyAppend<T>(s: seq<T>, t: seq<T>, key: T -> nat, k: nat)
    ensures WithKey(s + t, key, k) == WithKey(s, key, k) + WithKey(t, key, k)
    decreases |t|
  {
    if t == [] {
      assert s + t == s;
    } else {
      var n := |t| - 1;
      assert (s + t)[..|s + t| - 1] == s + t[..n];
      WithKeyAppend(s, t[..n], key, k);
    }
  }

  lemma {:induction false} InsertWithKey<T>(s: seq<T>, x: T, key: T -> nat, k: nat)
    ensures WithKey(Insert(s, x, key), key, k) == WithKey(s, key, k) + (if key(x) == k then [x] else [])
    decreases |s|
  {
    if s == [] || key(s[|s| - 1]) >= key(x) {
      WithKeyAppend(s, [x], key, k);
      assert [x][..0] == [];
    } else {
      var init := s[..|s| - 1];
      var last := s[|s| - 1];
      InsertWithKey(init, x, key, k);
      WithKeyAppend(Insert(init, x, key), [last], key, k);
      assert [last][..0] == [];
    }
  }

  /** Stability: the elements of any one key come out in the order they went in. */
  lemma {:induction false} SortDescStable<T>(s: seq<T>, key: T -> nat, k: nat)
    ensures WithKey(SortDesc(s, key), key, k) == WithKey(s, key, k)
    decreases |s|
  {
    if s != [] {
      SortDescStable(s[..|s| - 1], key, k);
      InsertWithKey(SortDesc(s[..|s| - 1], key), s[|s| - 1], key, k);
    }
  }

  // ------------------------------------------------------------ the board

  /**
   * The board holds the first `min(10, n)` selected elements, best first,
   * each one of the input's selected elements.
   */
  lemma TopShape<T>(s: seq<T>, keep: T -> bool, key: T -> nat)
    ensures var r := Top(s, keep, key);
      && |r| == Min(BOARD_SIZE, |Filter(s, keep)|)
      && NonIncreasing(r, key)
      && (forall i :: 0 <= i < |r| ==> keep(r[i]) && r[i] in s)
  {
    var kept := Filter(s, keep);
    var sorted := SortDesc(kept, key);
    var r := Top(s, keep, key);
    SortDescSorted(kept, key);
    forall i | 0 <= i < |r|
      ensures keep(r[i]) && r[i] in s
    {
      assert r[i] == sorted[i];
      assert r[i] in multiset(sorted);
      assert r[i] in multiset(kept);
      assert r[i] in multiset(s);
    }
  }

  /** A selected element missing from the board sits on a full board and ranks no higher than its last row. */
  lemma TopComplete<T>(s: seq<T>, keep: T -> bool, key: T -> nat, x: T)
    requires x in s && keep(x)
    ensures var r := Top(s, keep, key);
      x in r || (|r| == BOARD_SIZE && key(x) <= key(r[|r| - 1]))
  {
    var kept := Filter(s, keep);
    var sorted := SortDesc(kept, key);
    var r := Top(s, keep, key);
    if x !in r {
      SortDescSorted(kept, key);
      assert x in multiset(kept);
      assert x in multiset(sorted);
      var p :| 0 <= p < |sorted| && sorted[p] == x;
      assert sorted[|r| - 1] == r[|r| - 1];
    }
  }
}
