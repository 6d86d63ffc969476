/** Sums over finite sets of item ids, independent of the order in which the
    set is visited. The source adds up values while iterating over a dict or a
    set, whose iteration order is not part of its contract; these sums are the
    order-free meaning of such loops. */
module Sums {

  /** The sum of f(k) over all k in s. */
  ghost function SetSum(s: set<int>, f: int -> real): real
    decreases |s|
  {
    if s == {} then 0.0
    else
      NonEmptyHasElement(s);
      var k :| k in s;
      f(k) + SetSum(s - {k}, f)
  }

  /** A non-empty set has an element to visit first. */
  lemma NonEmptyHasElement(s: set<int>)
    requires s != {}
    ensures exists k :: k in s
  {
    if forall k :: k !in s {
      assert false;
    }
  }

  /** Any element may be taken out first: the sum does not depend on the
      order of the visit. */
  lemma {:induction false} SetSumRemove(s: set<int>, f: int -> real, k: int)
    requires k in s
    ensures SetSum(s, f) == f(k) + SetSum(s - {k}, f)
    decreases |s|
  {
    var j :| j in s && SetSum(s, f) == f(j) + SetSum(s - {j}, f);
    if j != k {
      SetSumRemove(s - {j}, f, k);
      SetSumRemove(s - {k}, f, j);
      assert s - {j} - {k} == s - {k} - {j};
    }
  }

  /** Adding one new element to the visited part adds its term. */
  lemma SetSumInsert(s: set<int>, f: int -> real, k: int)
    requires k !in s
    ensures SetSum(s + {k}, f) == SetSum(s, f) + f(k)
  {
    SetSumRemove(s + {k}, f, k);
    assert s + {k} - {k} == s;
  }

  /** Two term functions that agree on s have the same sum over s. */
  lemma {:induction false} SetSumCongruent(s: set<int>, f: int -> real, g: int -> real)
    requires forall k :: k in s ==> f(k) == g(k)
    ensures SetSum(s, f) == SetSum(s, g)
    decreases |s|
  {
    if s != {} {
      NonEmptyHasElement(s);
      var k :| k in s;
      SetSumRemove(s, f, k);
      SetSumRemove(s, g, k);
      SetSumCongruent(s - {k}, f, g);
    }
  }

  /** A sum of non-negative terms is non-negative. */
  lemma {:induction false} SetSumNonNegative(s: set<int>, f: int -> real)
    requires forall k :: k in s ==> f(k) >= 0.0
    ensures SetSum(s, f) >= 0.0
    decreases |s|
  {
    if s != {} {
      NonEmptyHasElement(s);
      var k :| k in s;
      SetSumRemove(s, f, k);
      SetSumNonNegative(s - {k}, f);
    }
  }

  /** A subset is no larger than its superset. */
  lemma {:induction false} SubsetCardinality(s: set<int>, t: set<int>)
    requires s <= t
    ensures |s| <= |t|
    decreases |s|
  {
    if s != {} {
      NonEmptyHasElement(s);
      var k :| k in s;
      SubsetCardinality(s - {k}, t - {k});
    }
  }

  /** No element occurs twice. */
  predicate Distinct(xs: seq<int>)
  {
    forall i, j :: 0 <= i < j < |xs| ==> xs[i] != xs[j]
  }

  /** The sum of f over xs, in the order of xs: what a loop that visits the
      elements in that order computes. */
  ghost function SeqSum(xs: seq<int>, f: int -> real): real
    decreases |xs|
  {
    if xs == [] then 0.0 else SeqSum(xs[..|xs| - 1], f) + f(xs[|xs| - 1])
  }

  /** Visiting every element of s once, in any order, sums to SetSum. */
  lemma {:induction false} SeqSumIsSetSum(xs: seq<int>, s: set<int>, f: int -> real)
    requires Distinct(xs)
    requires forall x :: x in xs <==> x in s
    ensures SeqSum(xs, f) == SetSum(s, f)
    decreases |xs|
  {
    if xs != [] {
      var n := |xs| - 1;
      var init := xs[..n];
      assert xs[n] in xs;
      forall x ensures x in init <==> x in s - {xs[n]} {
        if x in init {
          var i :| 0 <= i < n && init[i] == x;
          assert xs[i] == x;
        }
      }
      SeqSumIsSetSum(init, s - {xs[n]}, f);
      SetSumRemove(s, f, xs[n]);
    }
  }
}
