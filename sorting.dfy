/** A concrete, stable insertion sort driven by a three-way comparator in the
    style of JavaScript's Array.prototype.sort (negative: the first argument
    goes first), and what it guarantees. The source sorts its tables with the
    library sort; this module stands in for it. */
module Sorting {
  import opened Collections

  /** Puts x in front of the first element it does not sort after. */
  function Insert<T>(x: T, s: seq<T>, cmp: (T, T) -> int): (r: seq<T>)
    ensures |r| == |s| + 1
    ensures multiset(r) == multiset(s) + multiset{x}
    ensures r[0] == x || (s != [] && r[0] == s[0])
  {
    if s == [] then [x]
    else if cmp(x, s[0]) <= 0 then [x] + s
    else
      assert s == [s[0]] + s[1..];
      [s[0]] + Insert(x, s[1..], cmp)
  }

  /** Sorts by inserting each element into the sorted rest; an element keeps
      its place ahead of later elements that compare equal to it. */
  function InsertionSort<T>(s: seq<T>, cmp: (T, T) -> int): (r: seq<T>)
    ensures |r| == |s|
    ensures multiset(r) == multiset(s)
  {
    if s == [] then []
    else
      assert s == [s[0]] + s[1..];
      Insert(s[0], InsertionSort(s[1..], cmp), cmp)
  }

  /** The comparator judges a pair the same way whichever way round it is asked. */
  ghost predicate Antisymmetric<T(!new)>(cmp: (T, T) -> int)
  {
    forall a, b :: cmp(a, b) == -cmp(b, a)
  }

  /** a is strictly ahead of b by the key pair (k1, k2), both descending. */
  predicate Above<T>(a: T, b: T, k1: T -> int, k2: T -> int)
  {
    k1(a) > k1(b) || (k1(a) == k1(b) && k2(a) > k2(b))
  }

  /** The comparator puts first whatever is ahead by the key pair. */
  ghost predicate Respects<T(!new)>(cmp: (T, T) -> int, k1: T -> int, k2: T -> int)
  {
    forall a, b :: Above(a, b, k1, k2) ==> cmp(a, b) < 0
  }

  /** No element is ahead, by the key pair, of an element before it. */
  ghost predicate Ranked<T>(s: seq<T>, k1: T -> int, k2: T -> int)
  {
    forall i, j :: 0 <= i < j < |s| ==> !Above(s[j], s[i], k1, k2)
  }

  /** Every neighbouring pair is in an order the comparator accepts. */
  ghost predicate Adjacent<T>(s: seq<T>, cmp: (T, T) -> int)
  {
    forall i :: 0 <= i < |s| - 1 ==> cmp(s[i], s[i + 1]) <= 0
  }

  lemma {:induction false} InsertRanked<T(!new)>(x: T, s: seq<T>, cmp: (T, T) -> int, k1: T -> int, k2: T -> int)
    requires Antisymmetric(cmp) && Respects(cmp, k1, k2) && Ranked(s, k1, k2)
    ensures Ranked(Insert(x, s, cmp), k1, k2)
  {
    if s == [] {
    } else if cmp(x, s[0]) <= 0 {
      assert cmp(s[0], x) == -cmp(x, s[0]);
      assert !Above(s[0], x, k1, k2);
      var r := [x] + s;
      forall i, j | 0 <= i < j < |r| ensures !Above(r[j], r[i], k1, k2) {
        if i == 0 && j > 1 {
          assert !Above(s[j - 1], s[0], k1, k2);
        }
      }
    } else {
      assert !Above(x, s[0], k1, k2);
      InsertRanked(x, s[1..], cmp, k1, k2);
      var rest := Insert(x, s[1..], cmp);
      assert Insert(x, s, cmp) == [s[0]] + rest;
      forall j | 0 <= j < |rest| ensures !Above(rest[j], s[0], k1, k2) {
        assert rest[j] in multiset(rest);
        if rest[j] != x {
          assert rest[j] in multiset(s[1..]);
          var k :| 0 <= k < |s[1..]| && s[1..][k] == rest[j];
          assert s[k + 1] == rest[j];
        }
      }
    }
  }

  lemma {:induction false} SortRanked<T(!new)>(s: seq<T>, cmp: (T, T) -> int, k1: T -> int, k2: T -> int)
    requires Antisymmetric(cmp) && Respects(cmp, k1, k2)
    ensures Ranked(InsertionSort(s, cmp), k1, k2)
  {
    if s != [] {
      SortRanked(s[1..], cmp, k1, k2);
      InsertRanked(s[0], InsertionSort(s[1..], cmp), cmp, k1, k2);
    }
  }

  lemma {:induction false} InsertAdjacent<T(!new)>(x: T, s: seq<T>, cmp: (T, T) -> int)
    requires Antisymmetric(cmp) && Adjacent(s, cmp)
    ensures Adjacent(Insert(x, s, cmp), cmp)
  {
    if s != [] && cmp(x, s[0]) > 0 {
      InsertAdjacent(x, s[1..], cmp);
      var rest := Insert(x, s[1..], cmp);
      assert Insert(x, s, cmp) == [s[0]] + rest;
      assert cmp(s[0], rest[0]) <= 0 by {
        if rest[0] == x { assert cmp(s[0], x) == -cmp(x, s[0]); }
      }
    }
  }

  lemma {:induction false} SortAdjacent<T(!new)>(s: seq<T>, cmp: (T, T) -> int)
    requires Antisymmetric(cmp)
    ensures Adjacent(InsertionSort(s, cmp), cmp)
  {
    if s != [] {
      SortAdjacent(s[1..], cmp);
      InsertAdjacent(s[0], InsertionSort(s[1..], cmp), cmp);
    }
  }

  lemma {:induction false} SumInsert<T>(x: T, s: seq<T>, cmp: (T, T) -> int, f: T -> int)
    ensures Sum(Insert(x, s, cmp), f) == f(x) + Sum(s, f)
  {
    if s != [] && cmp(x, s[0]) > 0 {
      SumInsert(x, s[1..], cmp, f);
      assert Insert(x, s, cmp)[1..] == Insert(x, s[1..], cmp);
    } else if s != [] {
      assert ([x] + s)[1..] == s;
    }
  }

  lemma {:induction false} SumSort<T>(s: seq<T>, cmp: (T, T) -> int, f: T -> int)
    ensures Sum(InsertionSort(s, cmp), f) == Sum(s, f)
  {
    if s != [] {
      SumSort(s[1..], cmp, f);
      SumInsert(s[0], InsertionSort(s[1..], cmp), cmp, f);
    }
  }
}
