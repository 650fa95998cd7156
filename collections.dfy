/** Helpers for the source's insertion-ordered dictionaries (a JavaScript
    object keyed by name, read back with Object.values): the values in key
    order, and sums over them. */
module Collections {

  predicate NoDups<T(==)>(s: seq<T>)
  {
    forall i, j :: 0 <= i < j < |s| ==> s[i] != s[j]
  }

  /** The values of t for the keys in order. */
  function Values<K, V>(t: map<K, V>, order: seq<K>): (r: seq<V>)
    requires forall k :: k in order ==> k in t
    ensures |r| == |order|
    ensures forall i :: 0 <= i < |order| ==> r[i] == t[order[i]]
  {
    seq(|order|, i requires 0 <= i < |order| => t[order[i]])
  }

  function Sum<T>(s: seq<T>, f: T -> int): int
  {
    if s == [] then 0 else f(s[0]) + Sum(s[1..], f)
  }

  lemma {:induction false} NoDupsCount<T>(s: seq<T>, x: T)
    requires NoDups(s)
    ensures multiset(s)[x] <= 1
  {
    if s != [] {
      assert s == [s[0]] + s[1..];
      NoDupsCount(s[1..], x);
      assert s[0] !in s[1..];
    }
  }

  /** Sums agree over sequences that agree pointwise. */
  lemma {:induction false} SumPointwise<T, U>(s: seq<T>, t: seq<U>, f: T -> int, g: U -> int)
    requires |s| == |t|
    requires forall i :: 0 <= i < |s| ==> f(s[i]) == g(t[i])
    ensures Sum(s, f) == Sum(t, g)
  {
    if s != [] {
      SumPointwise(s[1..], t[1..], f, g);
    }
  }

  lemma {:induction false} SumAppend<T>(s: seq<T>, x: T, f: T -> int)
    ensures Sum(s + [x], f) == Sum(s, f) + f(x)
  {
    if s != [] {
      assert (s + [x])[1..] == s[1..] + [x];
      SumAppend(s[1..], x, f);
    }
  }

  /** Replacing the value of one key changes the sum by the difference. */
  lemma {:induction false} SumValuesUpdate<K, V>(t: map<K, V>, order: seq<K>, k: K, v: V, f: V -> int)
    requires NoDups(order) && k in order && forall n :: n in order ==> n in t
    ensures Sum(Values(t[k := v], order), f) == Sum(Values(t, order), f) - f(t[k]) + f(v)
  {
    var t' := t[k := v];
    assert Values(t, order)[1..] == Values(t, order[1..]);
    assert Values(t', order)[1..] == Values(t', order[1..]);
    if order[0] == k {
      assert k !in order[1..];
      SumPointwise(Values(t', order[1..]), Values(t, order[1..]), f, f);
    } else {
      SumValuesUpdate(t, order[1..], k, v, f);
    }
  }

  /** Adding a new key at the end adds its value to the sum. */
  lemma SumValuesAdd<K, V>(t: map<K, V>, order: seq<K>, k: K, v: V, f: V -> int)
    requires k !in order && forall n :: n in order ==> n in t
    ensures Sum(Values(t[k := v], order + [k]), f) == Sum(Values(t, order), f) + f(v)
  {
    assert Values(t[k := v], order + [k]) == Values(t, order) + [v];
    SumAppend(Values(t, order), v, f);
  }
}
