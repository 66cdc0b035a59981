/**
 * Counting dictionaries: Python's `d[k] = d.get(k, 0) + 1` loop over a
 * sequence, with the insertion order of the keys, and sums of counts.
 */
module Counting {

  /** How often `x` occurs in `xs`. */
  function Occurrences<T(==)>(xs: seq<T>, x: T): (c: nat)
    ensures c <= |xs|
  {
    if xs == [] then 0 else Occurrences(xs[..|xs| - 1], x) + (if xs[|xs| - 1] == x then 1 else 0)
  }

  lemma {:induction false} OccurrencesPositive<T>(xs: seq<T>, x: T)
    ensures Occurrences(xs, x) > 0 <==> x in xs
  {
    if xs != [] {
      var init := xs[..|xs| - 1];
      OccurrencesPositive(init, x);
      assert xs == init + [xs[|xs| - 1]];
    }
  }

  predicate Distinct<T(==)>(xs: seq<T>) {
    forall i, j :: 0 <= i < j < |xs| ==> xs[i] != xs[j]
  }

  /** The distinct elements of `xs` in the order of their first occurrence (a dict's key order). */
  function FirstOccurrences<T(==)>(xs: seq<T>): (r: seq<T>)
    ensures Distinct(r)
    ensures forall k :: 0 <= k < |r| ==> r[k] in xs
    ensures forall k :: 0 <= k < |xs| ==> xs[k] in r
  {
    if xs == [] then []
    else
      var init := xs[..|xs| - 1];
      var last := xs[|xs| - 1];
      assert xs == init + [last];
      FirstOccurrences(init) + (if last in init then [] else [last])
  }

  /** The counts of the keys listed in `keys`, added up. */
  function SumOccurrences<T(==)>(xs: seq<T>, keys: seq<T>): nat {
    if keys == [] then 0 else SumOccurrences(xs, keys[..|keys| - 1]) + Occurrences(xs, keys[|keys| - 1])
  }

  /** The values a map holds for the listed keys (0 when absent), added up. */
  function SumOver<T(==)>(m: map<T, nat>, keys: seq<T>): nat {
    if keys == [] then 0
    else SumOver(m, keys[..|keys| - 1]) + (if keys[|keys| - 1] in m then m[keys[|keys| - 1]] else 0)
  }

  lemma {:induction false} SumOverEmpty<T>(keys: seq<T>)
    ensures SumOver(map[], keys) == 0
  {
    if keys != [] {
      SumOverEmpty(keys[..|keys| - 1]);
    }
  }

  lemma {:induction false} SumOccurrencesSnoc<T>(xs: seq<T>, x: T, keys: seq<T>)
    ensures SumOccurrences(xs + [x], keys) == SumOccurrences(xs, keys) + Occurrences(keys, x)
  {
    if keys != [] {
      SumOccurrencesSnoc(xs, x, keys[..|keys| - 1]);
      assert (xs + [x])[..|xs + [x]| - 1] == xs;
    }
  }

  lemma {:induction false} OccurrencesOfDistinct<T>(keys: seq<T>, x: T)
    requires Distinct(keys) && x in keys
    ensures Occurrences(keys, x) == 1
  {
    var init := keys[..|keys| - 1];
    assert keys == init + [keys[|keys| - 1]];
    if x == keys[|keys| - 1] {
      forall i | 0 <= i < |init| ensures init[i] != x {
        assert keys[i] != keys[|keys| - 1];
      }
      OccurrencesPositive(init, x);
    } else {
      OccurrencesOfDistinct(init, x);
    }
  }

  /** When the keys are distinct and cover every element, the counts add up to the length. */
  lemma {:induction false} SumOccurrencesTotal<T>(xs: seq<T>, keys: seq<T>)
    requires Distinct(keys)
    requires forall x :: x in xs ==> x in keys
    ensures SumOccurrences(xs, keys) == |xs|
  {
    if xs == [] {
      SumOccurrencesEmpty(keys);
    } else {
      var init := xs[..|xs| - 1];
      var last := xs[|xs| - 1];
      assert xs == init + [last];
      SumOccurrencesTotal(init, keys);
      SumOccurrencesSnoc(init, last, keys);
      OccurrencesOfDistinct(keys, last);
    }
  }

  lemma {:induction false} SumOccurrencesEmpty<T>(keys: seq<T>)
    ensures SumOccurrences([], keys) == 0
  {
    if keys != [] {
      SumOccurrencesEmpty(keys[..|keys| - 1]);
    }
  }

  /** A map holding exactly the counts of `xs` sums, over any key list, like the counts themselves. */
  lemma {:induction false} SumOverCounts<T>(m: map<T, nat>, xs: seq<T>, keys: seq<T>)
    requires forall x :: x in m ==> m[x] == Occurrences(xs, x)
    requires forall x :: x !in m ==> x !in xs
    ensures SumOver(m, keys) == SumOccurrences(xs, keys)
  {
    if keys != [] {
      var k := keys[|keys| - 1];
      SumOverCounts(m, xs, keys[..|keys| - 1]);
      OccurrencesPositive(xs, k);
    }
  }

  lemma OccurrencesSnoc<T>(xs: seq<T>, x: T, y: T)
    ensures Occurrences(xs + [x], y) == Occurrences(xs, y) + (if x == y then 1 else 0)
  {
    assert (xs + [x])[..|xs|] == xs;
  }

  lemma FirstOccurrencesSnoc<T>(xs: seq<T>, x: T)
    ensures FirstOccurrences(xs + [x]) == FirstOccurrences(xs) + (if x in xs then [] else [x])
  {
    assert (xs + [x])[..|xs|] == xs;
  }

  /** The counts of `xs` as a map: present exactly for the elements of `xs`. */
  predicate CountsOf<T(==)>(m: map<T, nat>, xs: seq<T>) {
    && (forall k :: 0 <= k < |xs| ==> xs[k] in m)
    && (forall x :: x in m ==> x in xs && m[x] == Occurrences(xs, x))
  }

  /** Counting one more element updates one entry. */
  lemma CountsSnoc<T>(m: map<T, nat>, xs: seq<T>, x: T)
    requires CountsOf(m, xs)
    ensures CountsOf(m[x := if x in m then m[x] + 1 else 1], xs + [x])
  {
    var m' := m[x := if x in m then m[x] + 1 else 1];
    var xs' := xs + [x];
    forall k | 0 <= k < |xs'| ensures xs'[k] in m' {
      if k < |xs| {
        assert xs'[k] == xs[k];
      }
    }
    forall y | y in m' ensures y in xs' && m'[y] == Occurrences(xs', y) {
      OccurrencesSnoc(xs, x, y);
      if y == x {
        OccurrencesPositive(xs, x);
      } else {
        assert y in m;
      }
    }
  }

  /**
   * The counting loop: one entry per distinct element holding its number of
   * occurrences; `order` is the key order of the resulting dict.
   */
  method Tally<T(==)>(xs: seq<T>) returns (m: map<T, nat>, order: seq<T>)
    ensures forall x :: x in m <==> x in xs
    ensures forall x :: x in m ==> m[x] == Occurrences(xs, x)
    ensures order == FirstOccurrences(xs)
  {
    m := map[];
    order := [];
    for i := 0 to |xs|
      invariant CountsOf(m, xs[..i])
      invariant order == FirstOccurrences(xs[..i])
    {
      var x := xs[i];
      assert xs[..i + 1] == xs[..i] + [x];
      CountsSnoc(m, xs[..i], x);
      FirstOccurrencesSnoc(xs[..i], x);
      if x in m {
        m := m[x := m[x] + 1];
      } else {
        order := order + [x];
        m := m[x := 1];
      }
    }
    assert xs[..|xs|] == xs;
  }
}
